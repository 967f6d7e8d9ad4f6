/** The saved timetable: one record under a fixed `localStorage` key,
    written whole on every submit and read once when the page loads. The
    JSON text is not modelled; a stored value is described by what
    `JSON.parse` makes of it. */
module Storage {
  import opened Wrappers
  import opened View

  /** The key the record is kept under. */
  const StorageKey: string := "whhs_timetable"

  /** `localStorage.getItem` for the record's key: the value stored under
      it, or `NoEntry` when there is none. */
  function ReadSaved(storage: map<string, Stored>): (stored: Stored)
    ensures StorageKey in storage ==> stored == storage[StorageKey]
    ensures StorageKey !in storage ==> stored == NoEntry
  {
    if StorageKey in storage then storage[StorageKey] else NoEntry
  }

  /** A decoded object, field by field; `None` is a field that is missing or
      null, `Some(v)` a field holding `v`. */
  datatype SavedData = SavedData(studentClass: Option<string>,
                                 subjects: Option<seq<string>>,
                                 activities: Option<seq<string>>)

  /** What reading the key yields. */
  datatype Stored =
    | NoEntry                            // nothing saved under the key
    | Unparsable                         // the empty string, or text `JSON.parse` throws on
    | Decoded(data: Option<SavedData>)   // parsed; `None` for a value that is not an object

  /** The load path: a saved value is applied only when it is a non-empty
      string that parses to an object whose three fields are all truthy. A
      string field is falsy when empty; an array is truthy even when empty.
      Every other value, including a parse failure, means "nothing saved". */
  function Load(stored: Stored): (r: Option<Request>)
    ensures r.Some? <==> && stored.Decoded? && stored.data.Some?
                         && stored.data.value.studentClass.Some?
                         && stored.data.value.studentClass.value != ""
                         && stored.data.value.subjects.Some?
                         && stored.data.value.activities.Some?
    ensures r.Some? ==> r.value == Request(stored.data.value.studentClass.value,
                                           stored.data.value.subjects.value,
                                           stored.data.value.activities.value)
  {
    match stored
    case Decoded(Some(SavedData(Some(studentClass), Some(subjects), Some(activities)))) =>
      if studentClass == "" then None else Some(Request(studentClass, subjects, activities))
    case _ => None
  }

  /** The submit path's `JSON.stringify` of the whole request: all three
      fields are written, whatever their values. */
  function Save(request: Request): (stored: Stored)
    ensures stored.Decoded? && stored.data.Some?
  {
    Decoded(Some(SavedData(Some(request.studentClass), Some(request.subjects), Some(request.activities))))
  }

  /** Saving and loading again gives the request back exactly when its class
      label is non-empty: a request saved with an empty class is stored but
      never applied on the next load. */
  lemma SaveLoadRoundTrip(request: Request)
    ensures Load(Save(request)) == Some(request) <==> request.studentClass != ""
    ensures request.studentClass == "" ==> Load(Save(request)) == None
  {
  }
}
