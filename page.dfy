/** The timetable form controller (`initTimetable`): on page load it applies
    the saved record to the form and renders it; on submit it parses the
    form, saves the request and renders it. */
module Timetable {
  import opened Wrappers
  import opened View
  import opened Form
  import opened Storage

  /** The page state the timetable code reads and writes: the three form
      fields, what the two output areas show, and the browser's storage,
      keyed by name. */
  class TimetablePage {
    var classField: string
    var subjectsField: string
    var activitiesField: string
    var shown: Option<Rendered>
    var storage: map<string, Stored>

    /** A page as it is served: the form's initial field values, nothing
        rendered yet, and whatever the browser has stored. */
    constructor (initial: Fields, storage: map<string, Stored>)
      ensures classField == initial.studentClass
      ensures subjectsField == initial.subjects && activitiesField == initial.activities
      ensures shown == None && this.storage == storage
    {
      classField := initial.studentClass;
      subjectsField := initial.subjects;
      activitiesField := initial.activities;
      shown := None;
      this.storage := storage;
    }

    function CurrentFields(): Fields
      reads this
    {
      Fields(classField, subjectsField, activitiesField)
    }

    /** Page load: a record under the key that passes the load check fills
        the form (the lists joined with ", ") and is rendered; anything else
        leaves the page exactly as it was. Storage is only read. */
    method Init()
      modifies this
      ensures storage == old(storage)
      ensures Load(ReadSaved(storage)).None? ==> unchanged(this)
      ensures Load(ReadSaved(storage)).Some? ==>
                && CurrentFields() == FieldsOf(Load(ReadSaved(storage)).value)
                && shown == Some(WeekView(Load(ReadSaved(storage)).value))
    {
      var saved := Load(ReadSaved(storage));
      if saved.Some? {
        var request := saved.value;
        classField := request.studentClass;
        subjectsField := Join(request.subjects);
        activitiesField := Join(request.activities);
        var view := Render(request);
        shown := Some(view);
      }
    }

    /** Submit: the fields are parsed into a request, which overwrites the
        record under the key and is rendered; other keys and the fields keep
        what they held. */
    method Submit()
      modifies this`storage, this`shown
      ensures storage == old(storage)[StorageKey := Save(RequestOf(old(CurrentFields())))]
      ensures shown == Some(WeekView(RequestOf(old(CurrentFields()))))
    {
      var request := RequestOf(CurrentFields());
      var view := Render(request);
      storage := storage[StorageKey := Save(request)];
      shown := Some(view);
    }
  }

  /** What a submit writes under the key comes back on the next page load
      exactly when the class field was non-empty, whatever else the storage
      holds, and then the form it fills in submits to the same request
      again. */
  lemma SubmitThenReload(fields: Fields, storage: map<string, Stored>)
    ensures (Load(ReadSaved(storage[StorageKey := Save(RequestOf(fields))])).Some?
             <==> fields.studentClass != "")
    ensures fields.studentClass != "" ==>
              && Load(ReadSaved(storage[StorageKey := Save(RequestOf(fields))])) == Some(RequestOf(fields))
              && RequestOf(FieldsOf(RequestOf(fields))) == RequestOf(fields)
  {
    var request := RequestOf(fields);
    assert ReadSaved(storage[StorageKey := Save(request)]) == Save(request);
    SaveLoadRoundTrip(request);
    ParsedListIsClean(fields.subjects);
    ParsedListIsClean(fields.activities);
    ResubmitLoadedFields(request);
  }
}
