/** The Flask back end (mysite/flask_app.py): the reflections store kept in
    static/backend/reflections.json and its GET, POST and DELETE routes. */
module ReflectionsApi {
  import opened Seqs

  /** One reflection object as it sits in reflections.json and as the GET route sends it.
      Every key may be absent; `reflection` is the older name of `content`. */
  datatype Record = Record(
    id: Option<int>,
    title: Option<string>,
    content: Option<string>,
    reflection: Option<string>,
    date: Option<string>,
    time: Option<string>,
    source: Option<string>)

  /** What is on disk at DATA_FILE. */
  datatype DataFile =
    | Missing                      // os.path.exists is false
    | Corrupt                      // json.load raises JSONDecodeError
    | Stored(records: seq<Record>)

  /** The JSON body of a POST: only the keys the route reads. */
  datatype PostBody = PostBody(title: Option<string>, content: Option<string>)

  /** `load_reflections`: a file that is missing or not valid JSON is an empty list. */
  function LoadReflections(f: DataFile): (rs: seq<Record>)
    ensures !f.Stored? ==> rs == []
    ensures f.Stored? ==> rs == f.records
  {
    match f
    case Missing => []
    case Corrupt => []
    case Stored(records) => records
  }

  /** `int(r.get('id', 0))`: the id the delete route compares, 0 when the key is absent. */
  function StoredId(r: Record): int {
    r.id.GetOr(0)
  }

  /** The record `add_reflection` builds; `now` is the millisecond timestamp and
      `date`, `time` the formatted clock, all passed in. */
  function NewReflection(data: PostBody, now: int, date: string, time: string): (r: Record)
    requires data.content.Some?
    ensures r.id == Some(now) && r.source == Some("python")
    ensures r.content == data.content && r.reflection.None?
    ensures data.title.None? ==> r.title == Some("New API Entry")
    ensures data.title.Some? ==> r.title == data.title
  {
    Record(Some(now), Some(data.title.GetOr("New API Entry")), data.content, None,
           Some(date), Some(time), Some("python"))
  }

  /** The server's data file, overwritten as a whole by `save_reflections`. */
  class ReflectionsServer {
    var file: DataFile
    ghost var saves: nat  // number of `save_reflections` calls so far

    constructor (f: DataFile)
      ensures file == f && saves == 0
    {
      file := f;
      saves := 0;
    }

    function Reflections(): seq<Record>
      reads this
    {
      LoadReflections(file)
    }

    /** `save_reflections`: replace the file with a well-formed list. */
    method SaveReflections(rs: seq<Record>)
      modifies this
      ensures file == Stored(rs) && saves == old(saves) + 1
    {
      file := Stored(rs);
      saves := saves + 1;
    }

    /** GET /api/reflections */
    method GetReflections() returns (body: seq<Record>)
      ensures file.Stored? ==> body == file.records
      ensures !file.Stored? ==> body == []
    {
      body := LoadReflections(file);
    }

    /** POST /api/reflections. A body without "content" raises KeyError (status 500)
        before the file is read or written. Otherwise exactly one record is appended
        and the whole list is saved, which also replaces a corrupt file. */
    method AddReflection(data: PostBody, now: int, date: string, time: string)
      returns (status: int, created: Option<Record>)
      modifies this
      ensures data.content.None? ==>
        status == 500 && created == None && file == old(file) && saves == old(saves)
      ensures data.content.Some? ==>
        && status == 201
        && created == Some(NewReflection(data, now, date, time))
        && file == Stored(old(Reflections()) + [created.value])
        && saves == old(saves) + 1
    {
      if data.content.None? {
        return 500, None;
      }
      var newReflection := NewReflection(data, now, date, time);
      var reflections := LoadReflections(file);
      reflections := reflections + [newReflection];
      SaveReflections(reflections);
      return 201, Some(newReflection);
    }

    /** DELETE /api/reflections/<entry_id>: drop every record whose id is `entryId`;
        save and answer 200 only if the list got shorter, otherwise 404 without writing. */
    method DeleteReflection(entryId: int) returns (status: int)
      modifies this
      ensures status == 200 || status == 404
      ensures status == 200 <==> exists r :: r in old(Reflections()) && StoredId(r) == entryId
      ensures status == 200 ==>
        && file == Stored(RemoveKey(old(Reflections()), StoredId, entryId))
        && saves == old(saves) + 1
        && forall r :: r in Reflections() ==> StoredId(r) != entryId
      ensures status == 404 ==> file == old(file) && saves == old(saves)
    {
      var reflections := LoadReflections(file);
      var originalLength := |reflections|;
      var updated := RemoveKey(reflections, StoredId, entryId);
      RemoveKeyShorter(reflections, StoredId, entryId);
      if |updated| < originalLength {
        SaveReflections(updated);
        return 200;
      } else {
        return 404;
      }
    }
  }

  /** A successful POST followed by a DELETE of the new id brings the stored list back,
      provided no earlier record had that id. */
  lemma AddThenDeleteRestores(before: seq<Record>, data: PostBody, now: int, date: string, time: string)
    requires data.content.Some?
    requires forall r :: r in before ==> StoredId(r) != now
    ensures RemoveKey(before + [NewReflection(data, now, date, time)], StoredId, now) == before
  {
    RemoveKeyAppend(before, [NewReflection(data, now, date, time)], StoredId, now);
    RemoveKeyAbsent(before, StoredId, now);
  }
}
