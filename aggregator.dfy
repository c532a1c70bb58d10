/**
 * The aggregation loop: every folder of the catalog is fetched in order and,
 * when a table comes back, its money columns are normalised and its records
 * stored under the folder's key.
 */
module Aggregator {
  import opened Wrappers
  import opened Sequences
  import opened Tables
  import opened Classifier
  import opened Normaliser

  /** A catalog entry (logical name, Drive folder id), as in a Python dict's `items()`. */
  type CatalogEntry = (string, string)

  /** `pastas_ids`, in its insertion order. */
  const FolderIds: seq<CatalogEntry> := [
    ("tabela_preco_convenios", "1FwE_Qdjv6ERsL3Dt9dUr4xrIbxzYxWkt"),
    ("tabela_custos_exames", "1GAoelILXNIMplq_g-jZkd9Gc_ebUFxT3"),
    ("producao_diaria_geral", "1yEba6h_GLE2NCFKPwq3U7JpDL503lm1z"),
    ("saida_gpt", "1prkf5SBpNc09LaE7R3_RY6ipsjkXwWqU")
  ]

  /** The keys of a catalog, in order. */
  function CatalogKeys(catalog: seq<CatalogEntry>): (keys: seq<string>)
    ensures |keys| == |catalog| && forall i :: 0 <= i < |catalog| ==> keys[i] == catalog[i].0
  {
    seq(|catalog|, i requires 0 <= i < |catalog| => catalog[i].0)
  }

  /** One entry of `dados`: a key and the records stored under it. */
  datatype Entry = Entry(key: string, records: seq<Row>)

  /** `dados`: a Python dict, whose entries keep their insertion order. */
  type Dados = seq<Entry>

  function Keys(d: Dados): (keys: seq<string>)
    ensures |keys| == |d| && forall i :: 0 <= i < |d| ==> keys[i] == d[i].key
  {
    seq(|d|, i requires 0 <= i < |d| => d[i].key)
  }

  /** `d.get(k)`: the records of the first entry with key `k`. */
  function Lookup(d: Dados, k: string): (r: Option<seq<Row>>)
    ensures r.None? <==> k !in Keys(d)
    ensures r.Some? ==> exists i :: 0 <= i < |d| && d[i] == Entry(k, r.value)
  {
    if d == [] then None
    else if d[0].key == k then Some(d[0].records)
    else
      assert Keys(d) == [d[0].key] + Keys(d[1..]);
      var r := Lookup(d[1..], k);
      assert r.Some? ==> d[1..][0] in d[1..];
      r
  }

  /**
   * `d[k] = v`: an existing key keeps its place and gets the new records,
   * a new key goes at the end.
   */
  function Store(d: Dados, k: string, v: seq<Row>): (r: Dados)
    ensures Keys(r) == if k in Keys(d) then Keys(d) else Keys(d) + [k]
  {
    if d == [] then [Entry(k, v)]
    else if d[0].key == k then [Entry(k, v)] + d[1..]
    else
      assert Keys(d) == [d[0].key] + Keys(d[1..]);
      var r := [d[0]] + Store(d[1..], k, v);
      assert Keys(r) == [d[0].key] + Keys(Store(d[1..], k, v));
      r
  }

  /** Storing `v` under `k` makes `k` look up `v` and leaves every other key as it was. */
  lemma {:induction false} LookupStore(d: Dados, k: string, v: seq<Row>, k': string)
    requires Distinct(Keys(d))
    ensures Lookup(Store(d, k, v), k') == if k' == k then Some(v) else Lookup(d, k')
  {
    if d != [] && d[0].key != k {
      assert Distinct(Keys(d[1..])) by {
        assert Keys(d[1..]) == Keys(d)[1..];
      }
      LookupStore(d[1..], k, v, k');
    }
  }

  /** What one stored table becomes: its records after its money columns are normalised. */
  function Ingest(t: Frame): (records: seq<Row>)
    ensures |records| == |t.rows|
  {
    NormaliseColumns(t, NumericColumns(t.columns)).rows
  }

  /** What `dados` holds for a folder: the normalised records of its table, if one came back. */
  function Expected(table: Option<Frame>): Option<seq<Row>> {
    match table
    case None => None
    case Some(t) => Some(Ingest(t))
  }

  /**
   * What the loop body yields for a folder id: the records to store, or
   * nothing. The lemmas about `dados` hold for any such function.
   */
  type Loader = string -> Option<seq<Row>>

  /** The loop body of the program: fetch the folder's table, then ingest it. */
  function Loaded(fetch: string -> Option<Frame>): Loader {
    id => Expected(fetch(id))
  }

  /** One turn of the loop: the entry's folder is loaded and, if it yields records, they are stored. */
  function Step(d: Dados, entry: CatalogEntry, load: Loader): Dados {
    match load(entry.1)
    case None => d
    case Some(records) => Store(d, entry.0, records)
  }

  /** Reference definition of the loop: the catalog folded from the front, entry by entry. */
  function Aggregate(catalog: seq<CatalogEntry>, load: Loader): Dados
    decreases |catalog|
  {
    if catalog == [] then []
    else Step(Aggregate(catalog[..|catalog| - 1], load), catalog[|catalog| - 1], load)
  }

  /** Reference definition of the expected keys: those whose folder yields a table, in catalog order. */
  function FetchedKeys(catalog: seq<CatalogEntry>, load: Loader): seq<string>
    decreases |catalog|
  {
    if catalog == [] then []
    else
      var last := catalog[|catalog| - 1];
      FetchedKeys(catalog[..|catalog| - 1], load) + (if load(last.1).Some? then [last.0] else [])
  }

  /** A key is expected exactly when some catalog entry with that key yields a table. */
  lemma {:induction false} FetchedKeysMembers(catalog: seq<CatalogEntry>, load: Loader, k: string)
    ensures k in FetchedKeys(catalog, load)
        <==> exists i :: 0 <= i < |catalog| && catalog[i].0 == k && load(catalog[i].1).Some?
    decreases |catalog|
  {
    if catalog != [] {
      var init := catalog[..|catalog| - 1];
      FetchedKeysMembers(init, load, k);
      assert forall i :: 0 <= i < |init| ==> init[i] == catalog[i];
      if exists i :: 0 <= i < |catalog| && catalog[i].0 == k && load(catalog[i].1).Some? {
        var i :| 0 <= i < |catalog| && catalog[i].0 == k && load(catalog[i].1).Some?;
        if i < |init| {
          assert init[i].0 == k && load(init[i].1).Some?;
        }
      }
    }
  }

  /** The expected keys keep the catalog's order. */
  lemma {:induction false} FetchedKeysOrder(catalog: seq<CatalogEntry>, load: Loader)
    ensures IsSubsequence(FetchedKeys(catalog, load), CatalogKeys(catalog))
    decreases |catalog|
  {
    if catalog != [] {
      var init := catalog[..|catalog| - 1];
      var last := catalog[|catalog| - 1];
      FetchedKeysOrder(init, load);
      assert CatalogKeys(catalog) == CatalogKeys(init) + [last.0];
      if load(last.1).Some? {
        SubsequenceAppendBoth(FetchedKeys(init, load), CatalogKeys(init), last.0);
      } else {
        assert FetchedKeys(catalog, load) == FetchedKeys(init, load);
        SubsequenceAppendRight(FetchedKeys(init, load), CatalogKeys(init), last.0);
      }
    }
  }

  /** The entries before the last one have distinct keys too. */
  lemma InitKeysDistinct(catalog: seq<CatalogEntry>)
    requires Distinct(CatalogKeys(catalog)) && catalog != []
    ensures Distinct(CatalogKeys(catalog[..|catalog| - 1]))
  {
    assert CatalogKeys(catalog[..|catalog| - 1]) == CatalogKeys(catalog)[..|catalog| - 1];
  }

  /** With distinct catalog keys, the last key is not among the expected keys of the entries before it. */
  lemma LastKeyNotFetchedBefore(catalog: seq<CatalogEntry>, load: Loader)
    requires Distinct(CatalogKeys(catalog)) && catalog != []
    ensures catalog[|catalog| - 1].0 !in FetchedKeys(catalog[..|catalog| - 1], load)
  {
    var init := catalog[..|catalog| - 1];
    var key := catalog[|catalog| - 1].0;
    forall j | 0 <= j < |init|
      ensures init[j].0 != key
    {
      assert CatalogKeys(catalog)[j] != CatalogKeys(catalog)[|catalog| - 1];
    }
    FetchedKeysMembers(init, load, key);
  }

  /**
   * With distinct catalog keys, the keys of `dados` are exactly the expected
   * keys, in catalog order, and none is stored twice.
   */
  lemma {:induction false} AggregateKeys(catalog: seq<CatalogEntry>, load: Loader)
    requires Distinct(CatalogKeys(catalog))
    ensures Keys(Aggregate(catalog, load)) == FetchedKeys(catalog, load)
    ensures Distinct(Keys(Aggregate(catalog, load)))
    decreases |catalog|
  {
    if catalog != [] {
      var init := catalog[..|catalog| - 1];
      var last := catalog[|catalog| - 1];
      assert CatalogKeys(init) == CatalogKeys(catalog)[..|catalog| - 1];
      AggregateKeys(init, load);
      var d := Aggregate(init, load);
      if load(last.1).Some? {
        LastKeyNotFetchedBefore(catalog, load);
        assert Keys(Store(d, last.0, load(last.1).value)) == Keys(d) + [last.0];
      } else {
        assert FetchedKeys(catalog, load) == FetchedKeys(init, load);
      }
    }
  }

  /** A turn of the loop for a key not stored yet: its records if the folder yields a table, else nothing. */
  lemma LookupStepNew(d: Dados, entry: CatalogEntry, load: Loader)
    requires Distinct(Keys(d)) && entry.0 !in Keys(d)
    ensures Lookup(Step(d, entry, load), entry.0)
         == load(entry.1)
  {
    if load(entry.1).Some? {
      LookupStore(d, entry.0, load(entry.1).value, entry.0);
    }
  }

  /** With distinct catalog keys, the last key is not stored by the entries before it. */
  lemma LastKeyNotStoredBefore(catalog: seq<CatalogEntry>, load: Loader)
    requires Distinct(CatalogKeys(catalog)) && catalog != []
    ensures Distinct(Keys(Aggregate(catalog[..|catalog| - 1], load)))
    ensures catalog[|catalog| - 1].0 !in Keys(Aggregate(catalog[..|catalog| - 1], load))
  {
    var init := catalog[..|catalog| - 1];
    InitKeysDistinct(catalog);
    AggregateKeys(init, load);
    LastKeyNotFetchedBefore(catalog, load);
  }

  /** Looking up in `dados` after the last turn is looking up in that turn's result. */
  lemma LookupUnfold(catalog: seq<CatalogEntry>, load: Loader, k: string)
    requires catalog != []
    ensures Lookup(Aggregate(catalog, load), k)
         == Lookup(Step(Aggregate(catalog[..|catalog| - 1], load), catalog[|catalog| - 1], load), k)
  {
  }

  /** The last turn stores the last entry's records, or nothing, under a key not stored before. */
  lemma LookupLastStep(catalog: seq<CatalogEntry>, load: Loader)
    requires Distinct(CatalogKeys(catalog)) && catalog != []
    ensures Lookup(Step(Aggregate(catalog[..|catalog| - 1], load), catalog[|catalog| - 1], load), catalog[|catalog| - 1].0)
         == load(catalog[|catalog| - 1].1)
  {
    LastKeyNotStoredBefore(catalog, load);
    LookupStepNew(Aggregate(catalog[..|catalog| - 1], load), catalog[|catalog| - 1], load);
  }

  /** The entry stored for the last catalog key depends on its own folder alone. */
  lemma AggregateLookupLast(catalog: seq<CatalogEntry>, load: Loader)
    requires Distinct(CatalogKeys(catalog)) && catalog != []
    ensures Lookup(Aggregate(catalog, load), catalog[|catalog| - 1].0)
         == load(catalog[|catalog| - 1].1)
  {
    LookupUnfold(catalog, load, catalog[|catalog| - 1].0);
    LookupLastStep(catalog, load);
  }

  /**
   * Lookup by catalog key: a folder that yields a table has that table's
   * normalised records under its key, and an absent folder has nothing, no
   * matter what the other folders yield.
   */
  lemma {:induction false} AggregateLookup(catalog: seq<CatalogEntry>, load: Loader, i: nat)
    requires Distinct(CatalogKeys(catalog)) && i < |catalog|
    ensures Lookup(Aggregate(catalog, load), catalog[i].0)
         == load(catalog[i].1)
    decreases |catalog|
  {
    if i == |catalog| - 1 {
      AggregateLookupLast(catalog, load);
    } else {
      var init := catalog[..|catalog| - 1];
      var last := catalog[|catalog| - 1];
      assert CatalogKeys(init) == CatalogKeys(catalog)[..|catalog| - 1];
      AggregateKeys(init, load);
      AggregateLookup(init, load, i);
      assert init[i] == catalog[i];
      assert catalog[i].0 != last.0 by {
        assert CatalogKeys(catalog)[i] != CatalogKeys(catalog)[|catalog| - 1];
      }
      if load(last.1).Some? {
        LookupStore(Aggregate(init, load), last.0, load(last.1).value, catalog[i].0);
      }
    }
  }

  /**
   * The loop of app.py lines 95-101: `dados` starts empty; for each catalog entry
   * in order the fetch oracle is asked for the folder's table; a table that
   * comes back is classified, normalised in a fresh data frame and stored
   * as records under the entry's key; an absent table adds nothing.
   */
  method LoadData(catalog: seq<CatalogEntry>, fetch: string -> Option<Frame>) returns (dados: Dados)
    ensures dados == Aggregate(catalog, Loaded(fetch))
  {
    dados := [];
    var i := 0;
    while i < |catalog|
      invariant 0 <= i <= |catalog|
      invariant dados == Aggregate(catalog[..i], Loaded(fetch))
    {
      var (chave, idPasta) := catalog[i];
      var table := fetch(idPasta);
      if table.Some? {
        var t := table.value;
        var cols := NumericColumns(t.columns);
        var df := new DataFrame(t);
        var missing := TreatNumericValues(df, cols);
        SelectedColumnsPresent(t);
        assert cols[..|cols|] == cols;
        assert missing == None;
        assert df.Records() == Ingest(t);
        assert Loaded(fetch)(idPasta) == Some(Ingest(t));
        dados := Store(dados, chave, df.Records());
      }
      ghost var prefix := catalog[..i + 1];
      assert prefix[..i] == catalog[..i] && prefix[i] == catalog[i];
      i := i + 1;
    }
    assert catalog[..i] == catalog;
  }

  /**
   * Every selected column is a column of the table, so `df[col]` never
   * misses, and no column is selected twice.
   */
  lemma SelectedColumnsPresent(t: Frame)
    ensures PresentPrefix(NumericColumns(t.columns), t.columns) == |NumericColumns(t.columns)|
    ensures Distinct(NumericColumns(t.columns))
  {
    NumericColumnsDistinct(t.columns);
  }

  /**
   * A stored record has the table's columns; a money column's cell is
   * normalised exactly once and every other cell is as the table had it.
   */
  lemma IngestRecord(t: Frame, k: nat, c: string)
    requires k < |t.rows| && c in t.columns
    ensures Ingest(t)[k].Keys == t.rows[k].Keys
    ensures Ingest(t)[k][c] == if MatchesKeyword(c) then NormaliseCell(t.rows[k][c]) else t.rows[k][c]
  {
    var cols := NumericColumns(t.columns);
    SelectedColumnsPresent(t);
    NormaliseColumnsCell(t, cols, k, c);
  }

  /** The catalog `pastas_ids` has four distinct keys. */
  lemma FolderIdsDistinct()
    ensures Distinct(CatalogKeys(FolderIds))
  {
    var keys := CatalogKeys(FolderIds);
    assert keys == ["tabela_preco_convenios", "tabela_custos_exames", "producao_diaria_geral", "saida_gpt"];
  }

  /**
   * On `pastas_ids`: the keys of `dados` are the expected keys in catalog
   * order, and the output folder `saida_gpt` is ingested like every other
   * folder: its key is present exactly when its folder yields a table.
   */
  lemma FolderIdsAggregate(fetch: string -> Option<Frame>)
    ensures Keys(Aggregate(FolderIds, Loaded(fetch))) == FetchedKeys(FolderIds, Loaded(fetch))
    ensures IsSubsequence(Keys(Aggregate(FolderIds, Loaded(fetch))), CatalogKeys(FolderIds))
    ensures "saida_gpt" in Keys(Aggregate(FolderIds, Loaded(fetch)))
        <==> fetch("1prkf5SBpNc09LaE7R3_RY6ipsjkXwWqU").Some?
  {
    var load := Loaded(fetch);
    FolderIdsDistinct();
    AggregateKeys(FolderIds, load);
    FetchedKeysOrder(FolderIds, load);
    AggregateLookup(FolderIds, load, 3);
    assert load(FolderIds[3].1).Some? <==> fetch(FolderIds[3].1).Some?;
  }
}
