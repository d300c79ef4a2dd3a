/**
 * The session key-value store of functions/helpers.py: one JSON document
 * (data/session_data.json) that maps names to the last value saved under
 * them. Saving reads the document, falls back to an empty map when the read
 * fails, sets one key and writes the whole map back (setting the key raises
 * when the document holds JSON that is not an object); loading reads the
 * document and looks the key up, without catching a failed read.
 */
module SessionStore {
  import opened Common

  /** The state of the document on disk, as far as `json.load` sees it. */
  datatype Document<V> =
    | Missing                       // the file does not exist
    | Unreadable                    // the file exists but is not valid JSON
    | NotAnObject                   // the file is valid JSON, but not an object (a list, a number, ...)
    | Readable(data: map<string, V>)

  /** Why a load fails: the read of the document raises, or the value read has no `get`. */
  datatype LoadError = DocumentNotReadable

  /** Why a save fails: the value read is not a dictionary, so setting a key on it raises. */
  datatype SaveError = StoredValueNotAMap

  /**
   * The map `save` starts from: the stored map, an empty one when the read
   * fails, and no map at all when the read gives something else than an object.
   */
  function PriorData<V>(doc: Document<V>): (r: Result<map<string, V>, SaveError>)
    ensures r.Err? <==> doc.NotAnObject?
    ensures doc.Readable? ==> r == Ok(doc.data)
    ensures doc.Missing? || doc.Unreadable? ==> r == Ok(map[])
  {
    match doc
    case Readable(data) => Ok(data)
    case NotAnObject => Err(StoredValueNotAMap)
    case _ => Ok(map[])
  }

  /**
   * The map written back by saving `value` under `key` over `doc`, or the
   * error raised before anything is written.
   */
  function Saved<V>(doc: Document<V>, key: string, value: V): (r: Result<map<string, V>, SaveError>)
    ensures r.Err? <==> doc.NotAnObject?
    ensures r.Ok? ==> key in r.value && r.value[key] == value
    ensures r.Ok? ==> forall k :: k in r.value && k != key ==> doc.Readable? && k in doc.data && r.value[k] == doc.data[k]
    ensures doc.Readable? ==> r.Ok? && forall k :: k in doc.data ==> k in r.value
    ensures doc.Missing? || doc.Unreadable? ==> r.Ok? && r.value.Keys == {key}
  {
    match PriorData(doc)
    case Ok(data) => Ok(data[key := value])
    case Err(e) => Err(e)
  }

  /** The document after a save: the written map, or the document untouched when the save raises. */
  function AfterSave<V>(doc: Document<V>, key: string, value: V): (d: Document<V>)
    ensures d.Readable? <==> !doc.NotAnObject?
    ensures Saved(doc, key, value).Ok? ==> d == Readable(Saved(doc, key, value).value)
    ensures doc.NotAnObject? ==> d == doc
  {
    match Saved(doc, key, value)
    case Ok(data) => Readable(data)
    case Err(_) => doc
  }

  /** What `load` returns for `key` when the document is `doc`. */
  function Lookup<V>(doc: Document<V>, key: string): (r: Result<Option<V>, LoadError>)
    ensures r.Ok? <==> doc.Readable?
    ensures r.Ok? ==> (r.value.Some? <==> key in doc.data)
    ensures r.Ok? && r.value.Some? ==> r.value.value == doc.data[key]
  {
    match doc
    case Readable(data) => Ok(if key in data then Some(data[key]) else None)
    case _ => Err(DocumentNotReadable)
  }

  /** The session file itself. */
  class SessionFile<V> {
    var document: Document<V>

    constructor (initial: Document<V>)
      ensures document == initial
    {
      document := initial;
    }

    /**
     * save_session_data: read-modify-write of the whole document; setting
     * the key raises, before the file is opened for writing, when the stored
     * value is not an object.
     */
    method Save(key: string, value: V) returns (r: Result<(), SaveError>)
      modifies this
      ensures r.Ok? <==> !old(document).NotAnObject?
      ensures document == AfterSave(old(document), key, value)
    {
      var sessionData: map<string, V>;
      match document {
        case Readable(data) =>
          sessionData := data;
        case NotAnObject =>
          return Err(StoredValueNotAMap);
        case _ =>
          sessionData := map[];
      }
      sessionData := sessionData[key := value];
      document := Readable(sessionData);
      r := Ok(());
    }

    /** load_session_data: a failed read is an error, an absent key is None. */
    method Load(key: string) returns (r: Result<Option<V>, LoadError>)
      ensures r == Lookup(document, key)
    {
      match document {
        case Readable(data) =>
          var value := if key in data then Some(data[key]) else None;
          r := Ok(value);
        case _ =>
          r := Err(DocumentNotReadable);
      }
    }
  }

  /**
   * Save-then-load returns the saved value, whatever the document was before,
   * unless the document holds something else than an object: then both raise.
   */
  lemma SaveThenLoad<V>(doc: Document<V>, key: string, value: V)
    ensures !doc.NotAnObject? ==> Lookup(AfterSave(doc, key, value), key) == Ok(Some(value))
    ensures doc.NotAnObject? ==> Lookup(AfterSave(doc, key, value), key).Err?
  {
  }

  /** Saving leaves every other key of the document as `load` saw it. */
  lemma SaveKeepsOtherKeys<V>(doc: Document<V>, key: string, value: V, other: string)
    requires doc.Readable? && other != key
    ensures Lookup(AfterSave(doc, key, value), other) == Lookup(doc, other)
  {
  }

  /** Saving the same pair twice leaves the same document as saving it once. */
  lemma SaveIdempotent<V>(doc: Document<V>, key: string, value: V)
    ensures AfterSave(AfterSave(doc, key, value), key, value) == AfterSave(doc, key, value)
  {
  }

  /** Of two saves to one key, the later one wins. */
  lemma LaterSaveWins<V>(doc: Document<V>, key: string, first: V, second: V)
    ensures AfterSave(AfterSave(doc, key, first), key, second) == AfterSave(doc, key, second)
  {
  }

  /** Saves to two different keys give the same document in either order. */
  lemma SavesToDistinctKeysCommute<V>(doc: Document<V>, k1: string, v1: V, k2: string, v2: V)
    requires k1 != k2
    ensures AfterSave(AfterSave(doc, k1, v1), k2, v2) == AfterSave(AfterSave(doc, k2, v2), k1, v1)
  {
  }

  /** Over a missing or unreadable document, a save leaves only the new key. */
  lemma SaveOverUnreadableStartsAfresh<V>(doc: Document<V>, key: string, value: V)
    requires doc.Missing? || doc.Unreadable?
    ensures AfterSave(doc, key, value) == Readable(map[key := value])
  {
  }

  /** Over JSON that is not an object, a save fails and leaves the document as it was. */
  lemma SaveOverNonObjectFails<V>(doc: Document<V>, key: string, value: V)
    requires doc.NotAnObject?
    ensures Saved(doc, key, value) == Err(StoredValueNotAMap)
    ensures AfterSave(doc, key, value) == doc
  {
  }
}
