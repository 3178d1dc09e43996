/**
  The record shapes the pipeline stores: a document is a field map keyed by `_id`, as the
  dictionaries the stage scripts build and the document store keeps.
*/
module Documents {

  /** A Python `datetime` (no time zone), as the store hands back `publish_date`. */
  datatype DateTime = DateTime(year: int, month: int, day: int, hour: int, minute: int, second: int)

  /** The ranges Python's `datetime` accepts (days up to 31 for every month). */
  predicate ValidDateTime(d: DateTime) {
    1 <= d.year <= 9999 && 1 <= d.month <= 12 && 1 <= d.day <= 31 &&
    0 <= d.hour < 24 && 0 <= d.minute < 60 && 0 <= d.second < 60
  }

  /**
    A field value: any value `json.loads` can decode (a string, an integer, a float, a
    boolean, `None`, a list or an object), or a datetime as the store hands it back.
  */
  datatype Value =
    | Text(s: string)
    | Int(i: int)
    | Float(r: real)
    | Bool(b: bool)
    | Null
    | List(items: seq<Value>)
    | Object(members: map<string, Value>)
    | Timestamp(t: DateTime)

  type Id = string

  /** The fields of a document other than `_id`. */
  type Fields = map<string, Value>

  /** A document (or an update entry) with its `_id` and its other fields. */
  datatype Doc = Doc(id: Id, fields: Fields)

  /** `dict.get(key, default)`. */
  function Get(f: Fields, key: string, default: Value): (v: Value)
    ensures key in f ==> v == f[key]
    ensures key !in f ==> v == default
  {
    if key in f then f[key] else default
  }

  /** No `_id` occurs twice in the list. */
  predicate DistinctIds(docs: seq<Doc>) {
    forall i, j :: 0 <= i < j < |docs| ==> docs[i].id != docs[j].id
  }
}
