/** What the application keeps in AsyncStorage: under the key
    `cgpa_data_<roll number>`, a JSON object whose top-level keys the result
    view reads as departments, each mapping a semester id to the saved
    courses and the GPA computed for them. Storage is modelled as an
    in-memory map from key to entry; JSON text is not modelled, only whether
    it parses to such an object. */
module Records {
  import opened JsText

  /** A course as saved: the catalog fields plus the grade that was selected. */
  datatype SavedCourse = SavedCourse(code: string, name: string, credit: nat, grade: string)

  /** One semester's saved result. */
  datatype Leaf = Leaf(courses: seq<SavedCourse>, cgpa: real)

  /** A roll number's stored object: top-level key, then semester id. */
  type Record = map<string, map<string, Leaf>>

  /** The stored text for a key: it parses to a record, or it does not
      (text `JSON.parse` rejects, or that parses to something other than
      an object). */
  datatype Entry = Parsed(record: Record) | Unparsable

  const KeyPrefix: string := "cgpa_data_"

  /** `cgpa_data_${rollNo}`. */
  function RollKey(rollNo: string): (k: string)
    ensures StartsWith(k, KeyPrefix)
  {
    KeyPrefix + rollNo
  }

  /** `key.replace('cgpa_data_', '')` on a key that starts with the prefix:
      the first occurrence is the prefix itself, so it is cut off. */
  function StripPrefix(key: string): (r: string)
    requires StartsWith(key, KeyPrefix)
    ensures RollKey(r) == key
  {
    key[|KeyPrefix|..]
  }

  /** Stripping the prefix undoes building the key. */
  lemma StripRollKey(rollNo: string)
    ensures StripPrefix(RollKey(rollNo)) == rollNo
  {
    assert RollKey(rollNo)[|KeyPrefix|..] == rollNo;
  }

  /** The key-value store: `AsyncStorage` as a map held by one object. */
  class Store {
    var items: map<string, Entry>

    constructor (initial: map<string, Entry>)
      ensures items == initial
    {
      items := initial;
    }
  }
}
