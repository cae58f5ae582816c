/** `ConfigManager` and `DNASpecies` of `config_manager.py`: one table of raw CSV cells per
    trait, every species column "1".."8" filled from GLOBAL when empty, and one record of
    parsed values per species built from those tables. */
module ConfigManagers {
  import opened Common
  import opened TraitValues

  /** A CSV row as `csv.DictReader` gives it: column name to cell text. */
  type Row = map<string, string>

  /** A trait's table: the row's non-empty cells, plus species columns filled from GLOBAL,
      which is `None` when GLOBAL itself was empty. */
  type Table = map<string, Option<string>>

  /** `DNASpecies`: a species number and its parsed trait values. */
  datatype SpeciesDna = SpeciesDna(speciesId: int, traits: map<string, Value>)
  {
    /** `get_trait`: `traits.get(name)`, so an unknown trait gives None. */
    function GetTrait(name: string): (v: Value)
      ensures name !in traits ==> v == NoneV
      ensures name in traits ==> v == traits[name]
    {
      if name in traits then traits[name] else NoneV
    }
  }

  /** `str(species_id)`. */
  function SpeciesName(s: int): string
  {
    IntToString(s)
  }

  /** The species column names "1".."n". */
  function SpeciesNamesUpTo(n: int): set<string>
  {
    set s | 1 <= s <= n :: SpeciesName(s)
  }

  /** No species column is called GLOBAL, Min or Max: species names are digits. */
  lemma SpeciesNameIsDigits(s: int, k: string)
    requires s >= 0 && |k| > 0 && !('0' <= k[0] <= '9')
    ensures SpeciesName(s) != k
  {
    assert SpeciesName(s)[0] == NatToString(s)[0];
  }

  /** `_parse_value`: None and the empty string give None; otherwise int, float or text. */
  function ParseCell(rec: Recognisers, cell: Option<string>): (v: Value)
    ensures cell.None? || cell.value == "" ==> v == NoneV
    ensures cell.Some? && cell.value != "" ==> v == ParseText(rec, cell.value)
  {
    match cell
    case None => NoneV
    case Some(s) => if s == "" then NoneV else ParseText(rec, s)
  }

  /** `{key: value for key, value in row.items() if value}`. */
  function Cleaned(row: Row): (t: Table)
    ensures forall k :: k in t <==> k in row && row[k] != ""
    ensures forall k :: k in t ==> t[k] == Some(row[k])
  {
    map k | k in row && row[k] != "" :: Some(row[k])
  }

  /** `table.get('GLOBAL')`. */
  function GlobalOf(t: Table): Option<string>
  {
    if "GLOBAL" in t then t["GLOBAL"] else None
  }

  /** The table after the fill loop has seen species 1..n. */
  function FilledUpTo(t: Table, n: int): Table
  {
    map k | k in t.Keys + SpeciesNamesUpTo(n) :: if k in t then t[k] else GlobalOf(t)
  }

  /** The table a row becomes. */
  function RowTable(row: Row): Table
  {
    FilledUpTo(Cleaned(row), 8)
  }

  /** Every species column is present in a row's table: its own cell when filled, else
      GLOBAL's cell, else None; the other columns are the row's non-empty cells. */
  lemma RowTableCells(row: Row)
    ensures var t := RowTable(row);
            (forall s :: 1 <= s <= 8 ==>
               (SpeciesName(s) in t &&
                t[SpeciesName(s)] == (if SpeciesName(s) in row && row[SpeciesName(s)] != "" then Some(row[SpeciesName(s)])
                                      else if "GLOBAL" in row && row["GLOBAL"] != "" then Some(row["GLOBAL"])
                                      else None))) &&
            (forall k :: k !in SpeciesNamesUpTo(8) ==> (k in t <==> k in row && row[k] != ""))
  {
    var t := RowTable(row);
    forall s | 1 <= s <= 8
      ensures SpeciesName(s) in SpeciesNamesUpTo(8)
    {
    }
  }

  /** The tables loaded from some rows; a row with an empty trait name is skipped and a
      later row for the same trait replaces the earlier one. */
  function Applied(config: map<string, Table>, rows: seq<Row>): map<string, Table>
    requires forall i :: 0 <= i < |rows| ==> "TRAIT_NAME" in rows[i]
  {
    if |rows| == 0 then config
    else
      var c := Applied(config, rows[..|rows| - 1]);
      var row := rows[|rows| - 1];
      if row["TRAIT_NAME"] != "" then c[row["TRAIT_NAME"] := RowTable(row)] else c
  }

  /** One more row applied: its table replaces the named trait's, unless the name is empty. */
  lemma AppliedStep(config: map<string, Table>, rows: seq<Row>, i: nat)
    requires i < |rows| && i <= FirstMissingName(rows) && "TRAIT_NAME" in rows[i]
    ensures var c := Applied(config, rows[..i]);
            var name := rows[i]["TRAIT_NAME"];
            Applied(config, rows[..i + 1]) == if name != "" then c[name := RowTable(rows[i])] else c
  {
    assert rows[..i + 1][..i] == rows[..i];
  }

  /** Index of the first row without a TRAIT_NAME column, where `row['TRAIT_NAME']` raises
      KeyError, or `|rows|`. */
  function FirstMissingName(rows: seq<Row>): (k: nat)
    ensures k <= |rows|
    ensures forall i :: 0 <= i < k ==> "TRAIT_NAME" in rows[i]
    ensures k < |rows| ==> "TRAIT_NAME" !in rows[k]
  {
    if |rows| == 0 || "TRAIT_NAME" !in rows[0] then 0 else 1 + FirstMissingName(rows[1..])
  }

  /** Every table has all eight species columns. */
  predicate SpeciesComplete(config: map<string, Table>)
  {
    forall t, s :: t in config && 1 <= s <= 8 ==> SpeciesName(s) in config[t]
  }

  /** Loading keeps every table complete. */
  lemma {:induction false} AppliedKeepsComplete(config: map<string, Table>, rows: seq<Row>)
    requires forall i :: 0 <= i < |rows| ==> "TRAIT_NAME" in rows[i]
    requires SpeciesComplete(config)
    ensures SpeciesComplete(Applied(config, rows))
  {
    if |rows| > 0 {
      AppliedKeepsComplete(config, rows[..|rows| - 1]);
      RowTableCells(rows[|rows| - 1]);
    }
  }

  /** The record of species `s`: every trait whose table has column `str(s)`, parsed. */
  function SpeciesRecord(rec: Recognisers, config: map<string, Table>, s: int): (d: SpeciesDna)
    ensures d.speciesId == s
    ensures forall t :: t in d.traits <==> t in config && SpeciesName(s) in config[t]
  {
    SpeciesDna(s, map t | t in config && SpeciesName(s) in config[t] :: ParseCell(rec, config[t][SpeciesName(s)]))
  }

  /** The records of species 1..n. */
  function SpeciesUpTo(rec: Recognisers, config: map<string, Table>, n: int): map<int, SpeciesDna>
  {
    map s | 1 <= s <= n :: SpeciesRecord(rec, config, s)
  }

  /** Adding the record of species s to the records of 1..s-1 gives those of 1..s. */
  lemma SpeciesUpToStep(base: map<int, SpeciesDna>, rec: Recognisers, config: map<string, Table>, s: int)
    requires s >= 1
    ensures (base + SpeciesUpTo(rec, config, s - 1))[s := SpeciesRecord(rec, config, s)]
            == base + SpeciesUpTo(rec, config, s)
  {
    var lhs := (base + SpeciesUpTo(rec, config, s - 1))[s := SpeciesRecord(rec, config, s)];
    var rhs := base + SpeciesUpTo(rec, config, s);
    assert lhs.Keys == rhs.Keys;
    forall k | k in lhs.Keys
      ensures lhs[k] == rhs[k]
    {
    }
  }

  /** With complete tables every species record knows every trait. */
  lemma SpeciesKnowAllTraits(rec: Recognisers, config: map<string, Table>, s: int)
    requires SpeciesComplete(config) && 1 <= s <= 8
    ensures SpeciesRecord(rec, config, s).traits.Keys == config.Keys
  {
  }

  /** `get_trait_value`: GLOBAL's cell parsed, None when the row left it empty. */
  function TraitValue(rec: Recognisers, config: map<string, Table>, name: string): (res: Result<Value>)
    ensures res.Err? <==> name !in config
    ensures res.Err? ==> res.error == KeyError
    ensures res.Ok? ==> res.value == ParseCell(rec, GlobalOf(config[name]))
  {
    if name !in config then Err(KeyError) else Ok(ParseCell(rec, GlobalOf(config[name])))
  }

  /** A species column the row left empty reads GLOBAL's value, both right after loading
      and from the records; a filled one reads its own cell. */
  lemma SpeciesValueFromRow(rec: Recognisers, config: map<string, Table>, row: Row, name: string, s: int)
    requires name in config && config[name] == RowTable(row) && 1 <= s <= 8
    ensures var v := SpeciesRecord(rec, config, s).GetTrait(name);
            var own := SpeciesName(s);
            (own in row && row[own] != "" ==> v == ParseText(rec, row[own])) &&
            (own !in row || row[own] == "" ==> Ok(v) == TraitValue(rec, config, name))
  {
    RowTableCells(row);
    SpeciesNameIsDigits(0, "GLOBAL");
    assert "GLOBAL" !in SpeciesNamesUpTo(8) by {
      forall s' | 1 <= s' <= 8
        ensures SpeciesName(s') != "GLOBAL"
      {
        SpeciesNameIsDigits(s', "GLOBAL");
      }
    }
    assert SpeciesName(s) in SpeciesNamesUpTo(8);
  }

  class ConfigManager {
    const rec: Recognisers
    var config: map<string, Table>
    var speciesDna: map<int, SpeciesDna>

    /** `__init__` up to `load_config`, which the caller runs next. */
    constructor(rec: Recognisers)
      ensures this.rec == rec && config == map[] && speciesDna == map[]
    {
      this.rec := rec;
      config := map[];
      speciesDna := map[];
    }

    /** `load_config`: the rows up to the first one without a TRAIT_NAME column are loaded;
        that row raises KeyError before any species record is built. */
    method LoadConfig(rows: seq<Row>) returns (res: Result<()>)
      modifies this
      ensures var k := FirstMissingName(rows);
              config == Applied(old(config), rows[..k]) &&
              (k < |rows| ==> res == Err(KeyError) && speciesDna == old(speciesDna)) &&
              (k == |rows| ==> res == Ok(()) && speciesDna == old(speciesDna) + SpeciesUpTo(rec, config, 8))
    {
      var i := 0;
      while i < |rows|
        invariant 0 <= i <= |rows| && i <= FirstMissingName(rows)
        invariant config == Applied(old(config), rows[..i]) && speciesDna == old(speciesDna)
      {
        var row := rows[i];
        if "TRAIT_NAME" !in row {
          assert FirstMissingName(rows) == i;
          return Err(KeyError);
        }
        AppliedStep(old(config), rows, i);
        var name := row["TRAIT_NAME"];
        if name != "" {
          var table := FillSpecies(row);
          config := config[name := table];
        }
        i := i + 1;
      }
      assert rows[..i] == rows && FirstMissingName(rows) == i;
      BuildSpecies();
      return Ok(());
    }

    /** The end of `load_config`: one `DNASpecies` per species 1..8 from the tables. */
    method BuildSpecies()
      modifies this
      ensures config == old(config) && speciesDna == old(speciesDna) + SpeciesUpTo(rec, config, 8)
    {
      for s := 1 to 9
        invariant config == old(config)
        invariant speciesDna == old(speciesDna) + SpeciesUpTo(rec, config, s - 1)
      {
        SpeciesUpToStep(old(speciesDna), rec, config, s);
        speciesDna := speciesDna[s := SpeciesRecord(rec, config, s)];
      }
    }

    /** The row's non-empty cells, then the fill loop over species 1..8. */
    static method FillSpecies(row: Row) returns (table: Table)
      ensures table == RowTable(row)
    {
      table := Cleaned(row);
      for s := 1 to 9
        invariant table == FilledUpTo(Cleaned(row), s - 1)
      {
        FillStep(Cleaned(row), s);
        if SpeciesName(s) !in table {
          table := table[SpeciesName(s) := GlobalOf(table)];
        }
      }
    }

    function GetTraitValue(name: string): (res: Result<Value>)
      reads this
      ensures res == TraitValue(rec, config, name)
    {
      if name !in config then Err(KeyError) else Ok(ParseCell(rec, GlobalOf(config[name])))
    }

    /** `get_species_trait_value`: KeyError for a species without a record; an unknown
        trait gives None. */
    function GetSpeciesTraitValue(name: string, species: int): (res: Result<Value>)
      reads this
      ensures res.Err? <==> species !in speciesDna
      ensures res.Err? ==> res.error == KeyError
      ensures res.Ok? && name !in speciesDna[species].traits ==> res.value == NoneV
      ensures res.Ok? && name in speciesDna[species].traits ==> res.value == speciesDna[species].traits[name]
    {
      if species !in speciesDna then Err(KeyError) else Ok(speciesDna[species].GetTrait(name))
    }

    function GetDnaForSpecies(species: int): (res: Result<SpeciesDna>)
      reads this
      ensures res.Err? <==> species !in speciesDna
      ensures res.Err? ==> res.error == KeyError
      ensures res.Ok? ==> res.value == speciesDna[species]
    {
      if species !in speciesDna then Err(KeyError) else Ok(speciesDna[species])
    }

    /** `get_trait_range`: the Min and Max cells parsed. An absent one defaults to an
        infinite float, which `_parse_value` hands to `int()`, raising OverflowError. */
    function GetTraitRange(name: string): (res: Result<(Value, Value)>)
      reads this
      ensures res.Err? <==> name !in config || "Min" !in config[name] || "Max" !in config[name]
      ensures res.Err? ==> res.error == (if name !in config then KeyError else OverflowError)
      ensures res.Ok? ==> res.value == (ParseCell(rec, config[name]["Min"]), ParseCell(rec, config[name]["Max"]))
    {
      if name !in config then Err(KeyError)
      else if "Min" !in config[name] then Err(OverflowError)
      else
        var lo := ParseCell(rec, config[name]["Min"]);
        if "Max" !in config[name] then Err(OverflowError)
        else Ok((lo, ParseCell(rec, config[name]["Max"])))
    }

    /** `get_trait_range` returning the infinite defaults themselves instead of passing
        them through `_parse_value`: only an unknown trait raises. */
    function GetTraitRangeIntended(name: string): (res: Result<(Value, Value)>)
      reads this
      ensures res.Err? <==> name !in config
      ensures res.Err? ==> res.error == KeyError
      ensures res.Ok? ==> res.value.0 == (if "Min" in config[name] then ParseCell(rec, config[name]["Min"]) else Inf(true))
      ensures res.Ok? ==> res.value.1 == (if "Max" in config[name] then ParseCell(rec, config[name]["Max"]) else Inf(false))
      ensures GetTraitRange(name).Ok? ==> res == GetTraitRange(name)
    {
      if name !in config then Err(KeyError)
      else
        var lo := if "Min" in config[name] then ParseCell(rec, config[name]["Min"]) else Inf(true);
        var hi := if "Max" in config[name] then ParseCell(rec, config[name]["Max"]) else Inf(false);
        Ok((lo, hi))
    }
  }

  /** One step of the fill loop: species `s` gets GLOBAL's cell if it has none; GLOBAL
      itself is never a species column, so every step reads the same GLOBAL. */
  lemma FillStep(t: Table, s: int)
    requires 1 <= s <= 8
    ensures var before := FilledUpTo(t, s - 1);
            GlobalOf(before) == GlobalOf(t) &&
            FilledUpTo(t, s) == if SpeciesName(s) in before then before
                                else before[SpeciesName(s) := GlobalOf(before)]
  {
    var before := FilledUpTo(t, s - 1);
    assert "GLOBAL" !in SpeciesNamesUpTo(s - 1) by {
      forall s' | 1 <= s' <= s - 1
        ensures SpeciesName(s') != "GLOBAL"
      {
        SpeciesNameIsDigits(s', "GLOBAL");
      }
    }
    assert SpeciesNamesUpTo(s) == SpeciesNamesUpTo(s - 1) + {SpeciesName(s)};
  }

  /** After a complete load, a species record and a species lookup agree on every trait. */
  lemma DnaMatchesLookup(m: ConfigManager, name: string, s: int)
    requires s in m.speciesDna
    ensures m.GetDnaForSpecies(s).value.GetTrait(name) == m.GetSpeciesTraitValue(name, s).value
  {
  }

  /** A loaded manager: each species record is built from the current tables. */
  lemma LoadedSpeciesLookup(m: ConfigManager, row: Row, name: string, s: int)
    requires 1 <= s <= 8 && m.speciesDna == SpeciesUpTo(m.rec, m.config, 8)
    requires name in m.config && m.config[name] == RowTable(row)
    ensures var own := SpeciesName(s);
            m.GetSpeciesTraitValue(name, s).Ok? &&
            (own in row && row[own] != "" ==> m.GetSpeciesTraitValue(name, s).value == ParseText(m.rec, row[own])) &&
            (own !in row || row[own] == "" ==> m.GetSpeciesTraitValue(name, s) == m.GetTraitValue(name))
  {
    SpeciesValueFromRow(m.rec, m.config, row, name, s);
  }

  /** The range of a loaded row: OverflowError unless both Min and Max cells were filled,
      and then the two cells parsed. */
  lemma RangeFromRow(m: ConfigManager, row: Row, name: string)
    requires name in m.config && m.config[name] == RowTable(row)
    ensures var filled := "Min" in row && row["Min"] != "" && "Max" in row && row["Max"] != "";
            (m.GetTraitRange(name).Err? <==> !filled) &&
            (!filled ==> m.GetTraitRange(name).error == OverflowError) &&
            (filled ==> m.GetTraitRange(name).value == (ParseText(m.rec, row["Min"]), ParseText(m.rec, row["Max"])))
  {
    LimitsAreNotSpecies();
    RowTableCells(row);
  }

  /** With the infinite defaults returned as they are, a loaded row always has a range:
      each bound is its parsed cell when filled, else the matching infinity. */
  lemma IntendedRangeFromRow(m: ConfigManager, row: Row, name: string)
    requires name in m.config && m.config[name] == RowTable(row)
    ensures m.GetTraitRangeIntended(name).Ok?
    ensures m.GetTraitRangeIntended(name).value.0 ==
            (if "Min" in row && row["Min"] != "" then ParseText(m.rec, row["Min"]) else Inf(true))
    ensures m.GetTraitRangeIntended(name).value.1 ==
            (if "Max" in row && row["Max"] != "" then ParseText(m.rec, row["Max"]) else Inf(false))
  {
    LimitsAreNotSpecies();
    RowTableCells(row);
  }

  /** The fill loop never creates a Min or Max column. */
  lemma LimitsAreNotSpecies()
    ensures "Min" !in SpeciesNamesUpTo(8) && "Max" !in SpeciesNamesUpTo(8)
  {
    forall s | 1 <= s <= 8
      ensures SpeciesName(s) != "Min" && SpeciesName(s) != "Max"
    {
      SpeciesNameIsDigits(s, "Min");
      SpeciesNameIsDigits(s, "Max");
    }
  }
}
