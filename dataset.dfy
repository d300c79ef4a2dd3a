/**
 * Loading the cardiotocography tables (functions/helpers.py, loaddata).
 * The network fetch is an opaque outcome given as a parameter; the local
 * CSV cache under data/ is the state of a `DataDirectory` object. A
 * successful fetch overwrites the cache, a failed one falls back to reading
 * it, and reading a cache that was never written raises.
 */
module Dataset {
  import opened Common
  import opened Labels

  /** The two tables as fetched or cached: feature column names and the NSP codes. */
  datatype RawTables = RawTables(featureColumns: seq<string>, nsp: seq<int>)

  /** The tables `loaddata` returns: the raw ones plus the derived NSP_Label column. */
  datatype Tables = Tables(featureColumns: seq<string>, nsp: seq<int>, labels: seq<Option<Label>>)

  datatype LoadError = DataUnavailable

  /** Adds the display label column; every row's label is derived from its own code. */
  function WithLabels(raw: RawTables): (t: Tables)
    ensures t.featureColumns == raw.featureColumns && t.nsp == raw.nsp
    ensures |t.labels| == |t.nsp|
    ensures forall i :: 0 <= i < |t.nsp| ==> t.labels[i] == DisplayLabel(t.nsp[i])
  {
    Tables(raw.featureColumns, raw.nsp, LabelColumn(raw.nsp))
  }

  /** The data/ directory holding featured_df.csv and target_df.csv. */
  class DataDirectory {
    var cache: Option<RawTables>

    constructor (initial: Option<RawTables>)
      ensures cache == initial
    {
      cache := initial;
    }

    /**
     * loaddata. `fetched` is what the network fetch produced, None when it
     * raised. A success is written to the cache before it is returned.
     */
    method LoadData(fetched: Option<RawTables>) returns (r: Result<Tables, LoadError>)
      modifies this
      ensures fetched.Some? ==> cache == fetched && r == Ok(WithLabels(fetched.value))
      ensures fetched.None? ==> cache == old(cache)
      ensures fetched.None? && cache.Some? ==> r == Ok(WithLabels(cache.value))
      ensures fetched.None? && cache.None? ==> r == Err(DataUnavailable)
    {
      var raw: RawTables;
      if fetched.Some? {
        raw := fetched.value;
        cache := Some(raw);
      } else if cache.Some? {
        raw := cache.value;
      } else {
        return Err(DataUnavailable);
      }
      r := Ok(WithLabels(raw));
    }
  }
}
