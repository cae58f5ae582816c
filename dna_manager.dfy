/** `DNAManager` and `DNASpecies` of `dna_manager.py`: per-trait tables read from CSV rows,
    looked up per species with a fall-back to the GLOBAL column, behind a cache keyed by
    the string `f"{trait}_{species}"`. Each trait table is a Python dict, so it keeps
    insertion order; it is an association list here. */
module DnaManagers {
  import opened Common
  import opened TraitValues

  /** The keys of a trait table: 'GLOBAL', a species number, 'Min' and 'Max'. */
  datatype Key = GlobalKey | SpeciesKey(n: int) | MinKey | MaxKey

  /** A trait table in insertion order. */
  type Entries = seq<(Key, Value)>

  /** One CSV row: SPECIES_TYPE (the trait name), GLOBAL, the columns "1".."8", Min, Max;
      an empty string is an empty cell. */
  datatype DnaRow = DnaRow(speciesType: string, global: string, species: seq<string>, min: string, max: string)

  predicate WellFormedRow(row: DnaRow)
  {
    |row.species| == 8
  }

  predicate DistinctKeys(keys: seq<Key>)
  {
    forall i, j :: 0 <= i < j < |keys| ==> keys[i] != keys[j]
  }

  predicate KeysDistinct(e: Entries)
  {
    forall i, j :: 0 <= i < j < |e| ==> e[i].0 != e[j].0
  }

  /** Position of key `k` in `e`, or -1. */
  function KeyIndex(e: Entries, k: Key): (i: int)
    ensures -1 <= i < |e|
    ensures i == -1 <==> forall j :: 0 <= j < |e| ==> e[j].0 != k
    ensures i >= 0 ==> e[i].0 == k && forall j :: 0 <= j < i ==> e[j].0 != k
  {
    if |e| == 0 then -1
    else if e[0].0 == k then 0
    else
      var j := KeyIndex(e[1..], k);
      if j < 0 then -1 else j + 1
  }

  /** `d.get(k)`: the value stored under `k`, if any. */
  function Find(e: Entries, k: Key): (r: Option<Value>)
    ensures r.None? <==> forall j :: 0 <= j < |e| ==> e[j].0 != k
    ensures r.Some? ==> exists j :: 0 <= j < |e| && e[j] == (k, r.value)
  {
    var i := KeyIndex(e, k);
    if i >= 0 then Some(e[i].1) else None
  }

  /** `d[k] = v`: an existing key keeps its position, a new one goes last. */
  function Put(e: Entries, k: Key, v: Value): (r: Entries)
    ensures Find(r, k) == Some(v)
    ensures forall k' :: k' != k ==> Find(r, k') == Find(e, k')
    ensures Find(e, k).None? ==> r == e + [(k, v)]
    ensures Find(e, k).Some? ==> |r| == |e| && forall j :: 0 <= j < |e| ==> r[j].0 == e[j].0
    ensures KeysDistinct(e) ==> KeysDistinct(r)
  {
    var i := KeyIndex(e, k);
    if i >= 0 then
      SameKeysSameIndex(e, e[i := (k, v)]);
      e[i := (k, v)]
    else
      AppendedKeyIndex(e, k, v);
      e + [(k, v)]
  }

  /** Two tables with the same keys at the same positions index every key alike. */
  lemma SameKeysSameIndex(e: Entries, r: Entries)
    requires |e| == |r| && forall j :: 0 <= j < |e| ==> e[j].0 == r[j].0
    ensures forall k :: KeyIndex(r, k) == KeyIndex(e, k)
  {
    forall k
      ensures KeyIndex(r, k) == KeyIndex(e, k)
    {
      var a, b := KeyIndex(r, k), KeyIndex(e, k);
      if a >= 0 {
        assert e[a].0 == k;
      }
      if b >= 0 {
        assert r[b].0 == k;
      }
    }
  }

  /** Appending a new key leaves the other keys' positions alone and puts it last. */
  lemma AppendedKeyIndex(e: Entries, k: Key, v: Value)
    requires KeyIndex(e, k) == -1
    ensures KeyIndex(e + [(k, v)], k) == |e|
    ensures forall k' :: k' != k ==> KeyIndex(e + [(k, v)], k') == KeyIndex(e, k')
  {
    var r := e + [(k, v)];
    assert r[|e|].0 == k;
    forall k' | k' != k
      ensures KeyIndex(r, k') == KeyIndex(e, k')
    {
      var a, b := KeyIndex(r, k'), KeyIndex(e, k');
      if a >= 0 {
        assert a < |e| && e[a].0 == k';
      }
      if b >= 0 {
        assert r[b].0 == k';
      }
    }
  }

  /** The cells of a row in the order `_process_row` visits them, with their keys. */
  function RowCells(row: DnaRow): seq<string>
  {
    [row.global] + row.species + [row.min, row.max]
  }

  function SpeciesKeys(): seq<Key>
  {
    [SpeciesKey(1), SpeciesKey(2), SpeciesKey(3), SpeciesKey(4),
     SpeciesKey(5), SpeciesKey(6), SpeciesKey(7), SpeciesKey(8)]
  }

  function RowKeys(): seq<Key>
  {
    [GlobalKey] + SpeciesKeys() + [MinKey, MaxKey]
  }

  /** The non-empty cells, parsed, under their keys, in order. */
  function Filled(rec: Recognisers, cells: seq<string>, keys: seq<Key>): (e: Entries)
    requires |cells| == |keys|
    ensures |e| <= |cells|
  {
    if |cells| == 0 then []
    else
      (if cells[0] != "" then [(keys[0], ParseText(rec, cells[0]))] else [])
      + Filled(rec, cells[1..], keys[1..])
  }

  /** The table `_process_row` builds for one row. */
  function RowEntries(rec: Recognisers, row: DnaRow): Entries
    requires WellFormedRow(row)
  {
    Filled(rec, RowCells(row), RowKeys())
  }

  lemma {:induction false} FilledAppend(rec: Recognisers, c1: seq<string>, k1: seq<Key>, c2: seq<string>, k2: seq<Key>)
    requires |c1| == |k1| && |c2| == |k2|
    ensures Filled(rec, c1 + c2, k1 + k2) == Filled(rec, c1, k1) + Filled(rec, c2, k2)
  {
    if |c1| > 0 {
      assert (c1 + c2)[1..] == c1[1..] + c2;
      assert (k1 + k2)[1..] == k1[1..] + k2;
      FilledAppend(rec, c1[1..], k1[1..], c2, k2);
    } else {
      assert c1 + c2 == c2 && k1 + k2 == k2;
    }
  }

  /** `_process_row`'s loop over species s: the table grows by cell s when it is filled. */
  lemma SpeciesCellStep(rec: Recognisers, row: DnaRow, s: nat)
    requires WellFormedRow(row) && 1 <= s <= 8
    ensures Filled(rec, [row.global] + row.species[..s], [GlobalKey] + SpeciesKeys()[..s])
            == Filled(rec, [row.global] + row.species[..s - 1], [GlobalKey] + SpeciesKeys()[..s - 1])
               + (if row.species[s - 1] != "" then [(SpeciesKey(s), ParseText(rec, row.species[s - 1]))] else [])
  {
    var cell := row.species[s - 1];
    FilledAppend(rec, [row.global] + row.species[..s - 1], [GlobalKey] + SpeciesKeys()[..s - 1], [cell], [SpeciesKey(s)]);
    assert [row.global] + row.species[..s] == [row.global] + row.species[..s - 1] + [cell];
    assert [GlobalKey] + SpeciesKeys()[..s] == [GlobalKey] + SpeciesKeys()[..s - 1] + [SpeciesKey(s)];
  }

  /** A row's table is its GLOBAL and species part followed by its filled Min and Max. */
  lemma RowEntriesSplit(rec: Recognisers, row: DnaRow)
    requires WellFormedRow(row)
    ensures RowEntries(rec, row)
            == Filled(rec, [row.global] + row.species[..8], [GlobalKey] + SpeciesKeys()[..8])
               + (if row.min != "" then [(MinKey, ParseText(rec, row.min))] else [])
               + (if row.max != "" then [(MaxKey, ParseText(rec, row.max))] else [])
  {
    assert row.species[..8] == row.species && SpeciesKeys()[..8] == SpeciesKeys();
    FilledAppend(rec, [row.global] + row.species, [GlobalKey] + SpeciesKeys(), [row.min, row.max], [MinKey, MaxKey]);
    assert Filled(rec, [row.max], [MaxKey]) == (if row.max != "" then [(MaxKey, ParseText(rec, row.max))] else []);
    assert RowCells(row) == [row.global] + row.species + [row.min, row.max];
    assert RowKeys() == [GlobalKey] + SpeciesKeys() + [MinKey, MaxKey];
  }

  /** Every key in the table built from `cells` is one of `keys`, at or after the cell's
      position. */
  lemma {:induction false} FilledKeysFrom(rec: Recognisers, cells: seq<string>, keys: seq<Key>, i: nat)
    requires |cells| == |keys| && i < |Filled(rec, cells, keys)|
    ensures exists j :: 0 <= j < |keys| && Filled(rec, cells, keys)[i].0 == keys[j]
  {
    var rest := Filled(rec, cells[1..], keys[1..]);
    if cells[0] != "" && i == 0 {
      assert Filled(rec, cells, keys)[0].0 == keys[0];
    } else {
      var i' := if cells[0] != "" then i - 1 else i;
      assert Filled(rec, cells, keys)[i] == rest[i'];
      FilledKeysFrom(rec, cells[1..], keys[1..], i');
      var j :| 0 <= j < |keys| - 1 && rest[i'].0 == keys[1..][j];
      assert keys[1..][j] == keys[j + 1];
    }
  }

  /** Distinct column keys give a table with distinct keys. */
  lemma {:induction false} FilledKeysDistinct(rec: Recognisers, cells: seq<string>, keys: seq<Key>)
    requires |cells| == |keys| && DistinctKeys(keys)
    ensures KeysDistinct(Filled(rec, cells, keys))
  {
    if |cells| > 0 {
      var rest := Filled(rec, cells[1..], keys[1..]);
      FilledKeysDistinct(rec, cells[1..], keys[1..]);
      if cells[0] != "" {
        var e := Filled(rec, cells, keys);
        assert e == [(keys[0], ParseText(rec, cells[0]))] + rest;
        forall j | 0 < j < |e|
          ensures e[0].0 != e[j].0
        {
          assert e[j] == rest[j - 1];
          FilledKeysFrom(rec, cells[1..], keys[1..], j - 1);
        }
      }
    }
  }

  /** Looking up a column's key finds that column's parsed cell, or nothing if it was empty. */
  lemma {:induction false} FindFilled(rec: Recognisers, cells: seq<string>, keys: seq<Key>, j: nat)
    requires |cells| == |keys| && DistinctKeys(keys) && j < |keys|
    ensures Find(Filled(rec, cells, keys), keys[j]) ==
            if cells[j] != "" then Some(ParseText(rec, cells[j])) else None
  {
    var e := Filled(rec, cells, keys);
    var rest := Filled(rec, cells[1..], keys[1..]);
    if j == 0 {
      if cells[0] == "" {
        assert e == rest;
        forall i | 0 <= i < |rest|
          ensures rest[i].0 != keys[0]
        {
          FilledKeysFrom(rec, cells[1..], keys[1..], i);
        }
      } else {
        assert KeyIndex(e, keys[0]) == 0;
      }
    } else {
      assert keys[1..][j - 1] == keys[j] && cells[1..][j - 1] == cells[j];
      FindFilled(rec, cells[1..], keys[1..], j - 1);
      if cells[0] != "" {
        assert e == [(keys[0], ParseText(rec, cells[0]))] + rest;
        assert e[1..] == rest;
        assert KeyIndex(e, keys[j]) == (if KeyIndex(rest, keys[j]) < 0 then -1 else KeyIndex(rest, keys[j]) + 1);
      } else {
        assert e == rest;
      }
    }
  }

  /** Index of the first non-empty cell, or `|cells|`. */
  function FirstFilled(cells: seq<string>): (f: nat)
    ensures f <= |cells|
    ensures forall j :: 0 <= j < f ==> cells[j] == ""
    ensures f < |cells| ==> cells[f] != ""
  {
    if |cells| == 0 || cells[0] != "" then 0 else 1 + FirstFilled(cells[1..])
  }

  /** The first entry of a table is its first non-empty column; it is empty iff every cell is. */
  lemma {:induction false} FilledHead(rec: Recognisers, cells: seq<string>, keys: seq<Key>)
    requires |cells| == |keys|
    ensures var e := Filled(rec, cells, keys);
            var f := FirstFilled(cells);
            (|e| == 0 <==> f == |cells|) &&
            (f < |cells| ==> e[0] == (keys[f], ParseText(rec, cells[f])))
  {
    if |cells| > 0 && cells[0] == "" {
      FilledHead(rec, cells[1..], keys[1..]);
    }
  }

  lemma RowKeysDistinct()
    ensures DistinctKeys(RowKeys())
  {
    var ks := RowKeys();
    forall i, j | 0 <= i < j < |ks|
      ensures ks[i] != ks[j]
    {
      if 1 <= i && j <= 8 {
        assert ks[i] == SpeciesKey(i) && ks[j] == SpeciesKey(j);
      }
    }
  }

  /** Which key a lookup or an update for `species` uses. */
  function KeyFor(species: Option<int>): Key
  {
    match species
    case Some(s) => SpeciesKey(s)
    case None => GlobalKey
  }

  /** The uncached lookup of `get_trait_value`: with a species, its own value, else
      GLOBAL's, else None; without one, GLOBAL's, else the table's first value, which
      raises StopIteration on an empty table. */
  function Resolve(e: Entries, species: Option<int>): (r: Result<Value>)
    ensures r.Err? <==> species.None? && |e| == 0
    ensures r.Err? ==> r.error == StopIteration
  {
    match species
    case Some(s) =>
      (match Find(e, SpeciesKey(s))
       case Some(v) => Ok(v)
       case None => Ok(match Find(e, GlobalKey) case Some(g) => g case None => NoneV))
    case None =>
      if |e| == 0 then Err(StopIteration)
      else Ok(match Find(e, GlobalKey) case Some(g) => g case None => e[0].1)
  }

  /** The species column wins over GLOBAL, and GLOBAL over None. */
  lemma SpeciesLookupFromRow(rec: Recognisers, row: DnaRow, s: int)
    requires WellFormedRow(row) && 1 <= s <= 8
    ensures Resolve(RowEntries(rec, row), Some(s)) ==
            if row.species[s - 1] != "" then Ok(ParseText(rec, row.species[s - 1]))
            else if row.global != "" then Ok(ParseText(rec, row.global))
            else Ok(NoneV)
  {
    var cells, keys := RowCells(row), RowKeys();
    RowKeysDistinct();
    assert keys[s] == SpeciesKey(s) && cells[s] == row.species[s - 1];
    FindFilled(rec, cells, keys, s);
    assert keys[0] == GlobalKey && cells[0] == row.global;
    FindFilled(rec, cells, keys, 0);
  }

  /** Without a species: GLOBAL if filled, else the first filled column among "1".."8",
      Min and Max; a row with no filled cell raises StopIteration. */
  lemma DefaultLookupFromRow(rec: Recognisers, row: DnaRow)
    requires WellFormedRow(row)
    ensures var cells := RowCells(row);
            var f := FirstFilled(cells);
            Resolve(RowEntries(rec, row), None) ==
            if row.global != "" then Ok(ParseText(rec, row.global))
            else if f == |cells| then Err(StopIteration)
            else Ok(ParseText(rec, cells[f]))
  {
    var cells, keys := RowCells(row), RowKeys();
    RowKeysDistinct();
    assert keys[0] == GlobalKey && cells[0] == row.global;
    FindFilled(rec, cells, keys, 0);
    FilledHead(rec, cells, keys);
  }

  /** `get_trait_range`: Min and Max, defaulting to -inf and +inf. */
  function Range(e: Entries): (r: (Value, Value))
    ensures Find(e, MinKey).None? ==> r.0 == Inf(true)
    ensures Find(e, MinKey).Some? ==> r.0 == Find(e, MinKey).value
    ensures Find(e, MaxKey).None? ==> r.1 == Inf(false)
    ensures Find(e, MaxKey).Some? ==> r.1 == Find(e, MaxKey).value
  {
    (match Find(e, MinKey) case Some(v) => v case None => Inf(true),
     match Find(e, MaxKey) case Some(v) => v case None => Inf(false))
  }

  /** The range of a freshly loaded row: its parsed Min and Max cells, or the infinities. */
  lemma RangeFromRow(rec: Recognisers, row: DnaRow)
    requires WellFormedRow(row)
    ensures Range(RowEntries(rec, row)) ==
            (if row.min != "" then ParseText(rec, row.min) else Inf(true),
             if row.max != "" then ParseText(rec, row.max) else Inf(false))
  {
    var cells, keys := RowCells(row), RowKeys();
    RowKeysDistinct();
    assert keys[9] == MinKey && cells[9] == row.min;
    assert keys[10] == MaxKey && cells[10] == row.max;
    FindFilled(rec, cells, keys, 9);
    FindFilled(rec, cells, keys, 10);
  }

  /** The whole manager: trait tables and the lookup cache. */
  datatype DnaState = DnaState(config: map<string, Entries>, cache: map<string, Value>)

  /** Every trait table is a dict: no key twice. */
  predicate Inv(st: DnaState)
  {
    forall t :: t in st.config ==> KeysDistinct(st.config[t])
  }

  /** The cache key `f"{trait}_{species}"`, or the bare trait name without a species. */
  function CacheKey(name: string, species: Option<int>): string
  {
    match species
    case Some(s) => name + "_" + IntToString(s)
    case None => name
  }

  /** `load_config` over the rows read so far: each row with a trait name replaces that
      trait's table. */
  function Loaded(rec: Recognisers, config: map<string, Entries>, rows: seq<DnaRow>): (c: map<string, Entries>)
    requires forall k :: 0 <= k < |rows| ==> WellFormedRow(rows[k])
    ensures forall t :: t in config ==> t in c
  {
    if |rows| == 0 then config
    else
      var c := Loaded(rec, config, rows[..|rows| - 1]);
      var row := rows[|rows| - 1];
      if row.speciesType != "" then c[row.speciesType := RowEntries(rec, row)] else c
  }

  /** A trait no row names keeps its old table, or stays absent. */
  lemma {:induction false} LoadedUntouched(rec: Recognisers, config: map<string, Entries>, rows: seq<DnaRow>, t: string)
    requires forall k :: 0 <= k < |rows| ==> WellFormedRow(rows[k])
    requires forall k :: 0 <= k < |rows| ==> rows[k].speciesType != t
    ensures var c := Loaded(rec, config, rows);
            (t in c <==> t in config) && (t in config ==> c[t] == config[t])
  {
    if |rows| > 0 {
      var init := rows[..|rows| - 1];
      assert forall k :: 0 <= k < |init| ==> init[k] == rows[k];
      LoadedUntouched(rec, config, init, t);
    }
  }

  /** The table of a trait is the one built from row k when no later row names it. */
  lemma {:induction false} LoadedFromRow(rec: Recognisers, config: map<string, Entries>, rows: seq<DnaRow>, t: string, k: nat)
    requires forall m :: 0 <= m < |rows| ==> WellFormedRow(rows[m])
    requires t != "" && k < |rows| && rows[k].speciesType == t
    requires forall m :: k < m < |rows| ==> rows[m].speciesType != t
    ensures t in Loaded(rec, config, rows) && Loaded(rec, config, rows)[t] == RowEntries(rec, rows[k])
  {
    if k < |rows| - 1 {
      var init := rows[..|rows| - 1];
      assert forall m :: 0 <= m < |init| ==> init[m] == rows[m];
      LoadedFromRow(rec, config, init, t, k);
    }
  }

  /** After loading, a trait's table is the one built from the last row naming it; traits
      no row names keep their old table. */
  lemma LoadedLastRowWins(rec: Recognisers, config: map<string, Entries>, rows: seq<DnaRow>, t: string)
    requires forall k :: 0 <= k < |rows| ==> WellFormedRow(rows[k])
    requires t != ""
    ensures var c := Loaded(rec, config, rows);
            (forall k :: 0 <= k < |rows| ==> rows[k].speciesType != t) ==>
              (t in c <==> t in config) && (t in config ==> c[t] == config[t])
    ensures forall k :: (0 <= k < |rows| && rows[k].speciesType == t &&
                         (forall m :: k < m < |rows| ==> rows[m].speciesType != t)) ==>
              t in Loaded(rec, config, rows) && Loaded(rec, config, rows)[t] == RowEntries(rec, rows[k])
  {
    forall k | 0 <= k < |rows| && rows[k].speciesType == t &&
               (forall m :: k < m < |rows| ==> rows[m].speciesType != t)
      ensures t in Loaded(rec, config, rows) && Loaded(rec, config, rows)[t] == RowEntries(rec, rows[k])
    {
      LoadedFromRow(rec, config, rows, t, k);
    }
    if forall k :: 0 <= k < |rows| ==> rows[k].speciesType != t {
      LoadedUntouched(rec, config, rows, t);
    }
  }

  /** Loading keeps every table a dict. */
  lemma {:induction false} LoadedKeepsInv(rec: Recognisers, config: map<string, Entries>, rows: seq<DnaRow>)
    requires forall k :: 0 <= k < |rows| ==> WellFormedRow(rows[k])
    requires Inv(DnaState(config, map[]))
    ensures Inv(DnaState(Loaded(rec, config, rows), map[]))
  {
    if |rows| > 0 {
      LoadedKeepsInv(rec, config, rows[..|rows| - 1]);
      RowKeysDistinct();
      FilledKeysDistinct(rec, RowCells(rows[|rows| - 1]), RowKeys());
    }
  }

  /** `get_trait_value`: a cached entry is returned first, whatever the tables say; then an
      unknown trait raises KeyError; otherwise the resolved value is cached and returned. */
  function Got(st: DnaState, name: string, species: Option<int>): (res: Result<(DnaState, Value)>)
    ensures res.Ok? ==> res.value.0.config == st.config
    ensures res.Ok? ==> res.value.0.cache == st.cache[CacheKey(name, species) := res.value.1]
    ensures CacheKey(name, species) in st.cache ==>
              res == Ok((st, st.cache[CacheKey(name, species)]))
    ensures CacheKey(name, species) !in st.cache && name in st.config ==>
              res.Ok? == Resolve(st.config[name], species).Ok? &&
              (res.Ok? ==> res.value.1 == Resolve(st.config[name], species).value)
    ensures res.Err? <==>
              (CacheKey(name, species) !in st.cache && (name !in st.config || (species.None? && st.config[name] == [])))
    ensures res.Err? ==> res.error == (if name !in st.config then KeyError else StopIteration)
  {
    var key := CacheKey(name, species);
    if key in st.cache then Ok((st, st.cache[key]))
    else if name !in st.config then Err(KeyError)
    else
      match Resolve(st.config[name], species)
      case Ok(v) => Ok((st.(cache := st.cache[key := v]), v))
      case Err(e) => Err(e)
  }

  /** `update_config`: unknown trait raises KeyError and changes nothing; otherwise the
      species (or GLOBAL) entry is set and only that lookup's cache key is dropped. */
  function Updated(st: DnaState, name: string, species: Option<int>, v: Value): (res: Result<DnaState>)
    ensures res.Err? <==> name !in st.config
    ensures res.Err? ==> res.error == KeyError
    ensures res.Ok? ==> res.value.config.Keys == st.config.Keys
    ensures res.Ok? ==> Find(res.value.config[name], KeyFor(species)) == Some(v)
    ensures res.Ok? ==> forall k :: k != KeyFor(species) ==>
              Find(res.value.config[name], k) == Find(st.config[name], k)
    ensures res.Ok? ==> forall t :: t in st.config && t != name ==> res.value.config[t] == st.config[t]
    ensures res.Ok? ==> res.value.cache == st.cache - {CacheKey(name, species)}
    ensures res.Ok? && Inv(st) ==> Inv(res.value)
  {
    if name !in st.config then Err(KeyError)
    else
      Ok(DnaState(st.config[name := Put(st.config[name], KeyFor(species), v)],
                  st.cache - {CacheKey(name, species)}))
  }

  /** Asking twice gives the same answer and the second lookup changes nothing. */
  lemma RepeatedLookupStable(st: DnaState, name: string, species: Option<int>)
    requires Got(st, name, species).Ok?
    ensures var (st1, v) := Got(st, name, species).value;
            Got(st1, name, species) == Ok((st1, v))
  {
  }

  /** After `clear_cache` every lookup reads the tables. */
  lemma LookupAfterClear(st: DnaState, name: string, species: Option<int>)
    requires name in st.config
    ensures var r := Got(st.(cache := map[]), name, species);
            r.Ok? == Resolve(st.config[name], species).Ok? &&
            (r.Ok? ==> r.value.1 == Resolve(st.config[name], species).value)
  {
  }

  /** A species without its own entry caches GLOBAL's value under "trait_species";
      updating GLOBAL drops only the key "trait", so the species keeps reading the old
      GLOBAL value although the tables now resolve to the new one. */
  lemma StaleAfterGlobalUpdate(st: DnaState, name: string, s: int, g: Value, v: Value)
    requires name in st.config && CacheKey(name, Some(s)) !in st.cache
    requires Find(st.config[name], SpeciesKey(s)).None? && Find(st.config[name], GlobalKey) == Some(g)
    ensures var st1 := Got(st, name, Some(s)).value.0;
            var st2 := Updated(st1, name, None, v).value;
            Got(st, name, Some(s)).value.1 == g &&
            Got(st2, name, Some(s)) == Ok((st2, g)) &&
            Resolve(st2.config[name], Some(s)) == Ok(v)
  {
    var key := CacheKey(name, Some(s));
    assert |key| > |name|;
    var st1 := Got(st, name, Some(s)).value.0;
    var st2 := Updated(st1, name, None, v).value;
    assert key in st2.cache && st2.cache[key] == g;
  }

  /** The cache key of trait `t` for species `s` is the cache key of a trait literally
      named "t_s" with no species: once that one is cached, the species lookup returns it. */
  lemma CacheKeyCollision(st: DnaState, t: string, s: int)
    requires t in st.config && t + "_" + IntToString(s) in st.config
    requires CacheKey(t + "_" + IntToString(s), None) !in st.cache
    requires Got(st, t + "_" + IntToString(s), None).Ok?
    ensures var (st1, v) := Got(st, t + "_" + IntToString(s), None).value;
            Got(st1, t, Some(s)) == Ok((st1, v))
  {
  }

  /** The cache as intended: keyed by the pair (trait, species). */
  datatype CoherentState = CoherentState(config: map<string, Entries>, cache: map<(string, Option<int>), Value>)

  /** Every cached answer is what the tables say now. */
  predicate Coherent(st: CoherentState)
  {
    forall k :: k in st.cache ==> k.0 in st.config && Resolve(st.config[k.0], k.1) == Ok(st.cache[k])
  }

  /** `get_trait_value` with the pair as cache key. On a coherent cache it always returns
      the tables' answer and keeps the cache coherent. */
  function GotIntended(st: CoherentState, name: string, species: Option<int>): (res: Result<(CoherentState, Value)>)
    requires Coherent(st)
    ensures res.Ok? ==> Coherent(res.value.0) && res.value.0.config == st.config
    ensures name in st.config ==> (res.Ok? <==> Resolve(st.config[name], species).Ok?)
    ensures res.Ok? ==> name in st.config && Resolve(st.config[name], species) == Ok(res.value.1)
    ensures res.Err? ==> res.error == (if name !in st.config then KeyError else StopIteration)
  {
    var key := (name, species);
    if key in st.cache then Ok((st, st.cache[key]))
    else if name !in st.config then Err(KeyError)
    else
      match Resolve(st.config[name], species)
      case Ok(v) => Ok((st.(cache := st.cache[key := v]), v))
      case Err(e) => Err(e)
  }

  /** `update_config` dropping every cached answer for the trait keeps the cache coherent. */
  function UpdatedIntended(st: CoherentState, name: string, species: Option<int>, v: Value): (res: Result<CoherentState>)
    requires Coherent(st)
    ensures res.Err? <==> name !in st.config
    ensures res.Ok? ==> Coherent(res.value)
    ensures res.Ok? ==> res.value.config == st.config[name := Put(st.config[name], KeyFor(species), v)]
  {
    if name !in st.config then Err(KeyError)
    else
      var config := st.config[name := Put(st.config[name], KeyFor(species), v)];
      Ok(CoherentState(config, map k | k in st.cache && k.0 != name :: st.cache[k]))
  }

  /** With the pair-keyed cache, the species lookup of the stale scenario sees the update. */
  lemma IntendedSeesGlobalUpdate(st: CoherentState, name: string, s: int, v: Value)
    requires Coherent(st) && name in st.config && Find(st.config[name], SpeciesKey(s)).None?
    ensures var st1 := GotIntended(st, name, Some(s)).value.0;
            var st2 := UpdatedIntended(st1, name, None, v).value;
            GotIntended(st2, name, Some(s)).value.1 == v
  {
    var st1 := GotIntended(st, name, Some(s)).value.0;
    var st2 := UpdatedIntended(st1, name, None, v).value;
    assert Find(st2.config[name], SpeciesKey(s)).None?;
    assert Find(st2.config[name], GlobalKey) == Some(v);
  }

  class DnaManager {
    const rec: Recognisers
    var config: map<string, Entries>
    var cache: map<string, Value>

    function State(): DnaState
      reads this
    {
      DnaState(config, cache)
    }

    /** `__init__` followed by `load_config` over the rows of the CSV file. */
    constructor(rec: Recognisers, rows: seq<DnaRow>)
      requires forall k :: 0 <= k < |rows| ==> WellFormedRow(rows[k])
      ensures this.rec == rec
      ensures config == Loaded(rec, map[], rows) && cache == map[]
      ensures Inv(State())
    {
      this.rec := rec;
      config := map[];
      cache := map[];
      new;
      LoadConfig(rows);
      LoadedKeepsInv(rec, map[], rows);
    }

    /** `load_config`: rows with an empty trait name are skipped. */
    method LoadConfig(rows: seq<DnaRow>)
      requires forall k :: 0 <= k < |rows| ==> WellFormedRow(rows[k])
      modifies this
      ensures config == Loaded(rec, old(config), rows) && cache == old(cache)
    {
      var i := 0;
      while i < |rows|
        invariant 0 <= i <= |rows|
        invariant config == Loaded(rec, old(config), rows[..i]) && cache == old(cache)
      {
        var row := rows[i];
        assert rows[..i + 1][..i] == rows[..i];
        if row.speciesType != "" {
          ProcessRow(row, row.speciesType);
        }
        i := i + 1;
      }
      assert rows[..i] == rows;
    }

    /** `_process_row`: GLOBAL, then "1".."8", then Min and Max, each only when filled. */
    method ProcessRow(row: DnaRow, name: string)
      requires WellFormedRow(row)
      modifies this
      ensures config == old(config)[name := RowEntries(rec, row)] && cache == old(cache)
    {
      var entries: Entries := [];
      if row.global != "" {
        entries := entries + [(GlobalKey, ParseText(rec, row.global))];
      }
      assert [row.global] + row.species[..0] == [row.global] && [GlobalKey] + SpeciesKeys()[..0] == [GlobalKey];
      for s := 1 to 9
        invariant entries == Filled(rec, [row.global] + row.species[..s - 1], [GlobalKey] + SpeciesKeys()[..s - 1])
        invariant config == old(config) && cache == old(cache)
      {
        var cell := row.species[s - 1];
        SpeciesCellStep(rec, row, s);
        if cell != "" {
          entries := entries + [(SpeciesKey(s), ParseText(rec, cell))];
        }
      }
      RowEntriesSplit(rec, row);
      ghost var head := entries;
      if row.min != "" {
        entries := entries + [(MinKey, ParseText(rec, row.min))];
      }
      ghost var middle := entries;
      if row.max != "" {
        entries := entries + [(MaxKey, ParseText(rec, row.max))];
      }
      assert middle == head + (if row.min != "" then [(MinKey, ParseText(rec, row.min))] else []);
      assert entries == middle + (if row.max != "" then [(MaxKey, ParseText(rec, row.max))] else []);
      config := config[name := entries];
    }

    method GetTraitValue(name: string, species: Option<int>) returns (res: Result<Value>)
      modifies this
      ensures var r := Got(old(State()), name, species);
              (r.Ok? ==> res == Ok(r.value.1) && State() == r.value.0) &&
              (r.Err? ==> res == Err(r.error) && State() == old(State()))
    {
      var key := CacheKey(name, species);
      if key in cache {
        return Ok(cache[key]);
      }
      if name !in config {
        return Err(KeyError);
      }
      var e := config[name];
      var value: Value;
      match species {
        case Some(s) =>
          var own := Find(e, SpeciesKey(s));
          if own.Some? {
            value := own.value;
          } else {
            var g := Find(e, GlobalKey);
            value := if g.Some? then g.value else NoneV;
          }
        case None =>
          if |e| == 0 {
            return Err(StopIteration);
          }
          var g := Find(e, GlobalKey);
          value := if g.Some? then g.value else e[0].1;
      }
      cache := cache[key := value];
      return Ok(value);
    }

    method ClearCache()
      modifies this
      ensures config == old(config) && cache == map[]
    {
      cache := map[];
    }

    method UpdateConfig(name: string, species: Option<int>, value: Value) returns (res: Result<()>)
      modifies this
      ensures var r := Updated(old(State()), name, species, value);
              (r.Ok? ==> res == Ok(()) && State() == r.value) &&
              (r.Err? ==> res == Err(r.error) && State() == old(State()))
    {
      if name !in config {
        return Err(KeyError);
      }
      config := config[name := Put(config[name], KeyFor(species), value)];
      cache := cache - {CacheKey(name, species)};
      return Ok(());
    }

    function GetTraitRange(name: string): (res: Result<(Value, Value)>)
      reads this
      ensures res.Err? <==> name !in config
      ensures res.Err? ==> res.error == KeyError
      ensures res.Ok? ==> res.value == Range(config[name])
    {
      if name !in config then Err(KeyError) else Ok(Range(config[name]))
    }

    /** `__getitem__`: a view of one species. */
    method Species(species: int) returns (view: DnaSpecies)
      ensures fresh(view) && view.manager == this && view.species == species
    {
      view := new DnaSpecies(this, species);
    }
  }

  /** `DNASpecies`: a manager and a species number; its lookups go through the manager's
      cache. */
  class DnaSpecies {
    const manager: DnaManager
    const species: int

    constructor(manager: DnaManager, species: int)
      ensures this.manager == manager && this.species == species
    {
      this.manager := manager;
      this.species := species;
    }

    method GetTraitValue(name: string) returns (res: Result<Value>)
      modifies manager
      ensures var r := Got(old(manager.State()), name, Some(species));
              (r.Ok? ==> res == Ok(r.value.1) && manager.State() == r.value.0) &&
              (r.Err? ==> res == Err(r.error) && manager.State() == old(manager.State()))
    {
      res := manager.GetTraitValue(name, Some(species));
    }
  }
}
