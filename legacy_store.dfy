/** The older single-image record store of database_handler.py: one JSON object per
    user in `data/<id>.json`, holding seven flat attributes.

    The directory is a map from file path to the record the file holds; the UTC
    timestamp the saves write is a parameter. */
module DatabaseHandler {
  import opened Common
  import DbHandler

  type Entry = map<string, Json>

  /** attributes_list: the attributes every new record starts with. */
  const Attributes: seq<string> := [
    "epic_name", "image_url", "timestamp_epic_name", "timestamp_image_url",
    "image_status", "step_state", "points_assigned"
  ]

  /** `{attr: None for attr in attributes_list}`. */
  function EmptyEntry(): (e: Entry)
    ensures e.Keys == set a | a in Attributes
    ensures forall a :: a in e ==> e[a] == JNull
  {
    map a | a in Attributes :: JNull
  }

  /** The new record has exactly the seven attributes. */
  lemma EmptyEntryHasSevenAttributes()
    ensures |EmptyEntry().Keys| == 7
  {
    assert EmptyEntry().Keys == {"epic_name", "image_url", "timestamp_epic_name", "timestamp_image_url",
                                 "image_status", "step_state", "points_assigned"};
  }

  /** The record with `field` set to `value` and `stampField` set to the timestamp: a
      stamped save writes its two fields and leaves every other field as it was. */
  function Stamped(e: Entry, field: string, value: string, stampField: string, now: string): (s: Entry)
    ensures s.Keys == e.Keys + {field, stampField} && s[stampField] == JStr(now)
    ensures field != stampField ==> s[field] == JStr(value)
    ensures forall k :: k in e && k != field && k != stampField ==> s[k] == e[k]
  {
    e[field := JStr(value)][stampField := JStr(now)]
  }

  /** The record after initialize_key followed by load_user_data: the stored record
      when the file exists, the seven-key empty record otherwise. */
  function Current(files: map<string, Entry>, id: string): (e: Entry)
    ensures Load(files, id).Some? ==> e == Load(files, id).value
    ensures Load(files, id).None? ==> e == EmptyEntry()
  {
    var path := DbHandler.UserFile(id);
    if path in files then files[path] else EmptyEntry()
  }

  /** load_user_data on a directory: None when there is no file. */
  function Load(files: map<string, Entry>, id: string): (r: Option<Entry>)
    ensures r.Some? <==> DbHandler.UserFile(id) in files
  {
    var path := DbHandler.UserFile(id);
    if path in files then Some(files[path]) else None
  }

  /** Saving one user's record and loading any user's record: the saved record comes
      back, and every other user's record is untouched. */
  lemma LoadAfterSave(files: map<string, Entry>, id: string, data: Entry, other: string)
    ensures Load(files[DbHandler.UserFile(id) := data], other) ==
            if other == id then Some(data) else Load(files, other)
  {
    if other != id && DbHandler.UserFile(other) == DbHandler.UserFile(id) {
      DbHandler.UserFileInjective(other, id);
    }
  }

  class Directory {
    /** the record files, by path */
    var files: map<string, Entry>

    constructor (files: map<string, Entry>)
      ensures this.files == files
    {
      this.files := files;
    }

    /** initialize_key: writes the empty record only when there is no file. */
    method InitializeKey(id: string)
      modifies this
      ensures DbHandler.UserFile(id) in old(files) ==> files == old(files)
      ensures DbHandler.UserFile(id) !in old(files) ==> files == old(files)[DbHandler.UserFile(id) := EmptyEntry()]
    {
      var path := DbHandler.UserFile(id);
      if path !in files {
        files := files[path := EmptyEntry()];
      }
    }

    /** load_user_data. */
    function LoadUserData(id: string): (r: Option<Entry>)
      reads this
      ensures r.Some? <==> DbHandler.UserFile(id) in files
      ensures r.Some? ==> r.value == files[DbHandler.UserFile(id)]
    {
      Load(files, id)
    }

    /** get_user_entry: the same lookup as load_user_data. */
    function GetUserEntry(id: string): (r: Option<Entry>)
      reads this
      ensures r == LoadUserData(id)
    {
      LoadUserData(id)
    }

    /** save_user_data: overwrites the whole file. */
    method SaveUserData(id: string, data: Entry)
      modifies this
      ensures files == old(files)[DbHandler.UserFile(id) := data]
      ensures LoadUserData(id) == Some(data)
      ensures forall other :: other != id ==> LoadUserData(other) == old(LoadUserData(other))
    {
      var path := DbHandler.UserFile(id);
      ghost var before := files;
      files := files[path := data];
      forall other | other != id ensures LoadUserData(other) == Load(before, other) {
        LoadAfterSave(before, id, data, other);
      }
    }

    /** save_epic_name_to_database: initialize, load, set the two fields, save. */
    method SaveEpicName(id: string, epicName: string, now: string)
      modifies this
      ensures files == old(files)[DbHandler.UserFile(id) :=
                Stamped(Current(old(files), id), "epic_name", epicName, "timestamp_epic_name", now)]
    {
      InitializeKey(id);
      var data := LoadUserData(id);
      var entry := data.value;
      entry := entry["epic_name" := JStr(epicName)];
      entry := entry["timestamp_epic_name" := JStr(now)];
      SaveUserData(id, entry);
    }

    /** save_image_to_database: initialize, load, set the two fields, save. */
    method SaveImage(id: string, imageUrl: string, now: string)
      modifies this
      ensures files == old(files)[DbHandler.UserFile(id) :=
                Stamped(Current(old(files), id), "image_url", imageUrl, "timestamp_image_url", now)]
    {
      InitializeKey(id);
      var data := LoadUserData(id);
      var entry := data.value;
      entry := entry["image_url" := JStr(imageUrl)];
      entry := entry["timestamp_image_url" := JStr(now)];
      SaveUserData(id, entry);
    }
  }
}
