/**
  The document store as the stage scripts use it (src/_drv_mongodb.py): a database is a map
  from collection name to collection, a collection a map from `_id` to the document's other
  fields, and `MongoCnx.update_collection` upserts a list of documents one at a time with
  `update_one({"_id": id}, {"$set": doc}, upsert=True)`, counting inserts and updates.
*/
module MongoStore {
  import opened Wrappers
  import opened Documents

  type Store = map<Id, Fields>

  /** The stored fields of `id`, or none when it is absent (what an upsert starts from). */
  function Base(s: Store, id: Id): Fields {
    if id in s then s[id] else map[]
  }

  /** One `update_one` with `$set` and `upsert=True`: named fields take the entry's values, the rest stay. */
  function UpsertOne(s: Store, d: Doc): Store {
    s[d.id := Base(s, d.id) + d.fields]
  }

  /** The entries of `docs` applied to `s` in list order. */
  function Upsert(s: Store, docs: seq<Doc>): Store
    decreases |docs|
  {
    if docs == [] then s else Upsert(UpsertOne(s, docs[0]), docs[1..])
  }

  /** How many entries found no document with their `_id` (`matched_count == 0`). */
  function NewCount(s: Store, docs: seq<Doc>): nat
    decreases |docs|
  {
    if docs == [] then 0
    else (if docs[0].id in s then 0 else 1) + NewCount(UpsertOne(s, docs[0]), docs[1..])
  }

  /** How many entries matched a stored document. */
  function UpdatedCount(s: Store, docs: seq<Doc>): nat
    decreases |docs|
  {
    if docs == [] then 0
    else (if docs[0].id in s then 1 else 0) + UpdatedCount(UpsertOne(s, docs[0]), docs[1..])
  }

  /** The value that the last entry for `id` naming `key` gives it, if any entry does. */
  function LastSet(docs: seq<Doc>, id: Id, key: string): Option<Value>
    decreases |docs|
  {
    if docs == [] then None
    else
      var d := docs[|docs| - 1];
      if d.id == id && key in d.fields then Some(d.fields[key]) else LastSet(docs[..|docs| - 1], id, key)
  }

  /** The set of `_id`s that the list names. */
  function IdSet(docs: seq<Doc>): set<Id>
    decreases |docs|
  {
    if docs == [] then {} else {docs[0].id} + IdSet(docs[1..])
  }

  lemma {:induction false} IdSetMembers(docs: seq<Doc>, x: Id)
    ensures x in IdSet(docs) <==> exists i :: 0 <= i < |docs| && docs[i].id == x
    decreases |docs|
  {
    if docs != [] {
      IdSetMembers(docs[1..], x);
      if x in IdSet(docs[1..]) {
        var i :| 0 <= i < |docs[1..]| && docs[1..][i].id == x;
        assert docs[i + 1].id == x;
      }
      if exists i :: 0 <= i < |docs| && docs[i].id == x {
        var i :| 0 <= i < |docs| && docs[i].id == x;
        if i > 0 { assert docs[1..][i - 1].id == x; }
      }
    }
  }

  lemma {:induction false} UpsertSnoc(s: Store, docs: seq<Doc>, d: Doc)
    ensures Upsert(s, docs + [d]) == UpsertOne(Upsert(s, docs), d)
    ensures NewCount(s, docs + [d]) == NewCount(s, docs) + (if d.id in Upsert(s, docs) then 0 else 1)
    ensures UpdatedCount(s, docs + [d]) == UpdatedCount(s, docs) + (if d.id in Upsert(s, docs) then 1 else 0)
    decreases |docs|
  {
    if docs == [] {
      assert [] + [d] == [d];
      assert [d][1..] == [];
    } else {
      assert (docs + [d])[0] == docs[0];
      assert (docs + [d])[1..] == docs[1..] + [d];
      UpsertSnoc(UpsertOne(s, docs[0]), docs[1..], d);
    }
  }

  /** Storing a collection twice under one name keeps only the second. */
  lemma Overwrite<K, V>(m: map<K, V>, k: K, a: V, b: V)
    ensures m[k := a][k := b] == m[k := b]
  {
  }

  /** One more entry of the list, in the form the loop of `update_collection` consumes it. */
  lemma UpsertStep(s: Store, docs: seq<Doc>, i: nat)
    requires i < |docs|
    ensures Upsert(s, docs[..i + 1]) == UpsertOne(Upsert(s, docs[..i]), docs[i])
    ensures NewCount(s, docs[..i + 1]) == NewCount(s, docs[..i]) + (if docs[i].id in Upsert(s, docs[..i]) then 0 else 1)
    ensures UpdatedCount(s, docs[..i + 1]) == UpdatedCount(s, docs[..i]) + (if docs[i].id in Upsert(s, docs[..i]) then 1 else 0)
  {
    assert docs[..i + 1] == docs[..i] + [docs[i]];
    UpsertSnoc(s, docs[..i], docs[i]);
  }

  /** Every entry is counted exactly once, as new or as updated. */
  lemma {:induction false} CountsAddUp(s: Store, docs: seq<Doc>)
    ensures NewCount(s, docs) + UpdatedCount(s, docs) == |docs|
    decreases |docs|
  {
    if docs != [] {
      CountsAddUp(UpsertOne(s, docs[0]), docs[1..]);
    }
  }

  /** Which documents exist after the call: the old ones and every `_id` of the list. */
  lemma {:induction false} UpsertKeys(s: Store, docs: seq<Doc>)
    ensures Upsert(s, docs).Keys == s.Keys + IdSet(docs)
    decreases |docs|
  {
    if docs != [] {
      UpsertKeys(UpsertOne(s, docs[0]), docs[1..]);
    }
  }

  /**
    The `$set` merge, field by field: a field of `id` is present afterwards iff it was stored
    before or some entry for `id` names it, and its value is that of the LAST such entry,
    or the stored value when no entry names it.
  */
  lemma {:induction false} UpsertField(s: Store, docs: seq<Doc>, id: Id, key: string)
    requires id in Upsert(s, docs)
    ensures key in Upsert(s, docs)[id] <==> LastSet(docs, id, key).Some? || key in Base(s, id)
    ensures key in Upsert(s, docs)[id] ==>
      Upsert(s, docs)[id][key] == if LastSet(docs, id, key).Some? then LastSet(docs, id, key).value else Base(s, id)[key]
    decreases |docs|
  {
    if docs != [] {
      var init, d := docs[..|docs| - 1], docs[|docs| - 1];
      assert docs == init + [d];
      UpsertSnoc(s, init, d);
      var t := Upsert(s, init);
      assert LastSet(docs, id, key) ==
        if d.id == id && key in d.fields then Some(d.fields[key]) else LastSet(init, id, key);
      UpsertOneField(t, d, id, key);
      if id in t {
        UpsertField(s, init, id, key);
      } else {
        UpsertKeys(s, init);
        LastSetAbsent(init, id, key);
      }
    }
  }

  /** One `$set` upsert, field by field. */
  lemma UpsertOneField(t: Store, d: Doc, id: Id, key: string)
    requires id in UpsertOne(t, d)
    ensures id != d.id ==> id in t && UpsertOne(t, d)[id] == t[id]
    ensures id == d.id ==> (key in UpsertOne(t, d)[id] <==> key in d.fields || key in Base(t, id))
    ensures id == d.id && key in d.fields ==> UpsertOne(t, d)[id][key] == d.fields[key]
    ensures id == d.id && key !in d.fields && key in Base(t, id) ==> UpsertOne(t, d)[id][key] == Base(t, id)[key]
  {
  }

  lemma {:induction false} LastSetAbsent(docs: seq<Doc>, id: Id, key: string)
    requires id !in IdSet(docs)
    ensures LastSet(docs, id, key).None?
    decreases |docs|
  {
    if docs != [] {
      var init := docs[..|docs| - 1];
      IdSetMembers(init, id);
      IdSetMembers(docs, id);
      LastSetAbsent(init, id, key);
    }
  }

  /** Documents whose `_id` is not in the list are untouched. */
  lemma UpsertUntouched(s: Store, docs: seq<Doc>, id: Id)
    requires id !in IdSet(docs)
    ensures id in Upsert(s, docs) <==> id in s
    ensures id in s ==> Upsert(s, docs)[id] == s[id]
  {
    UpsertKeys(s, docs);
    if id in s {
      forall key ensures (key in Upsert(s, docs)[id] <==> key in s[id]) &&
                         (key in s[id] ==> Upsert(s, docs)[id][key] == s[id][key]) {
        UpsertField(s, docs, id, key);
        LastSetAbsent(docs, id, key);
      }
    }
  }

  /** A field that the entry for `docs[i].id` names is present afterwards; stored fields are never removed. */
  lemma UpsertKeepsFields(s: Store, docs: seq<Doc>, id: Id, key: string)
    requires id in Upsert(s, docs)
    ensures (exists i :: 0 <= i < |docs| && docs[i].id == id && key in docs[i].fields) ==> key in Upsert(s, docs)[id]
    ensures key in Base(s, id) ==> key in Upsert(s, docs)[id]
  {
    UpsertField(s, docs, id, key);
    if exists i :: 0 <= i < |docs| && docs[i].id == id && key in docs[i].fields {
      var i :| 0 <= i < |docs| && docs[i].id == id && key in docs[i].fields;
      LastSetSome(docs, id, key, i);
    }
  }

  lemma {:induction false} LastSetSome(docs: seq<Doc>, id: Id, key: string, i: nat)
    requires i < |docs| && docs[i].id == id && key in docs[i].fields
    ensures LastSet(docs, id, key).Some?
    decreases |docs|
  {
    if i < |docs| - 1 {
      LastSetSome(docs[..|docs| - 1], id, key, i);
    }
  }

  /**
    The store has no status guard: when the last entry for a document carries a `status`,
    that value replaces the stored one whatever it was (`matched` can go back to `fetched`).
  */
  lemma StatusOverwritten(s: Store, docs: seq<Doc>, i: nat)
    requires i < |docs| && "status" in docs[i].fields
    requires forall j :: i < j < |docs| ==> docs[j].id != docs[i].id
    ensures docs[i].id in Upsert(s, docs)
    ensures "status" in Upsert(s, docs)[docs[i].id]
    ensures Upsert(s, docs)[docs[i].id]["status"] == docs[i].fields["status"]
  {
    UpsertKeys(s, docs);
    var id := docs[i].id;
    IdSetMembers(docs, id);
    UpsertField(s, docs, id, "status");
    LastSetIs(docs, id, "status", i);
  }

  lemma {:induction false} LastSetIs(docs: seq<Doc>, id: Id, key: string, i: nat)
    requires i < |docs| && docs[i].id == id && key in docs[i].fields
    requires forall j :: i < j < |docs| ==> docs[j].id != id
    ensures LastSet(docs, id, key) == Some(docs[i].fields[key])
    decreases |docs|
  {
    if i < |docs| - 1 {
      LastSetIs(docs[..|docs| - 1], id, key, i);
    }
  }

  lemma {:induction false} LastSetFrom(docs: seq<Doc>, id: Id, key: string)
    requires LastSet(docs, id, key).Some?
    ensures exists j :: 0 <= j < |docs| && docs[j].id == id && key in docs[j].fields && docs[j].fields[key] == LastSet(docs, id, key).value
    decreases |docs|
  {
    var n := |docs| - 1;
    if !(docs[n].id == id && key in docs[n].fields) {
      LastSetFrom(docs[..n], id, key);
      var j :| 0 <= j < n && docs[..n][j].id == id && key in docs[..n][j].fields &&
        docs[..n][j].fields[key] == LastSet(docs[..n], id, key).value;
      assert docs[j] == docs[..n][j];
    }
  }

  /**
    A batch whose every entry sets `key` to the same value `v` leaves `v` in `key` of every
    document it names, whatever was stored there before.
  */
  lemma UniformFieldWins(s: Store, docs: seq<Doc>, key: string, v: Value, i: nat)
    requires forall j :: 0 <= j < |docs| ==> key in docs[j].fields && docs[j].fields[key] == v
    requires i < |docs|
    ensures docs[i].id in Upsert(s, docs)
    ensures key in Upsert(s, docs)[docs[i].id] && Upsert(s, docs)[docs[i].id][key] == v
  {
    var id := docs[i].id;
    UpsertKeys(s, docs);
    IdSetMembers(docs, id);
    LastSetSome(docs, id, key, i);
    LastSetFrom(docs, id, key);
    UpsertField(s, docs, id, key);
  }

  /** In a batch without repeated `_id`s, every entry's fields are stored at the entry's values. */
  lemma DistinctEntryWins(s: Store, docs: seq<Doc>, i: nat, key: string)
    requires DistinctIds(docs)
    requires i < |docs| && key in docs[i].fields
    ensures docs[i].id in Upsert(s, docs)
    ensures key in Upsert(s, docs)[docs[i].id] && Upsert(s, docs)[docs[i].id][key] == docs[i].fields[key]
  {
    var id := docs[i].id;
    UpsertKeys(s, docs);
    IdSetMembers(docs, id);
    UpsertField(s, docs, id, key);
    LastSetIs(docs, id, key, i);
  }

  /** A field that no entry sets keeps, in every stored document, its presence and its value. */
  lemma UnsetKeyKept(s: Store, docs: seq<Doc>, id: Id, key: string)
    requires forall j :: 0 <= j < |docs| ==> key !in docs[j].fields
    requires id in Upsert(s, docs)
    ensures key in Upsert(s, docs)[id] <==> key in Base(s, id)
    ensures key in Base(s, id) ==> Upsert(s, docs)[id][key] == Base(s, id)[key]
  {
    if LastSet(docs, id, key).Some? {
      LastSetFrom(docs, id, key);
    }
    UpsertField(s, docs, id, key);
  }

  /** A re-fetched stub moves a `matched` document back to `fetched`. */
  lemma RefetchRegressesStatus()
    ensures var s := map["a" := map["status" := Text("matched"), "summary" := Text("S")]];
      var stub := Doc("a", map["status" := Text("fetched"), "title" := Text("T")]);
      Upsert(s, [stub]) == map["a" := map["status" := Text("fetched"), "summary" := Text("S"), "title" := Text("T")]]
  {
    var s := map["a" := map["status" := Text("matched"), "summary" := Text("S")]];
    var stub := Doc("a", map["status" := Text("fetched"), "title" := Text("T")]);
    assert [stub][1..] == [];
    assert Upsert(s, [stub]) == UpsertOne(s, stub);
    assert Base(s, "a") + stub.fields == map["status" := Text("fetched"), "summary" := Text("S"), "title" := Text("T")];
  }

  /** Applying the same list twice leaves the store as one application does. */
  lemma UpsertIdempotent(s: Store, docs: seq<Doc>)
    ensures Upsert(Upsert(s, docs), docs) == Upsert(s, docs)
  {
    var t := Upsert(s, docs);
    var u := Upsert(t, docs);
    UpsertKeys(s, docs);
    UpsertKeys(t, docs);
    assert u.Keys == t.Keys;
    forall id | id in t ensures u[id] == t[id] {
      forall key ensures (key in u[id] <==> key in t[id]) && (key in t[id] ==> u[id][key] == t[id][key]) {
        UpsertField(s, docs, id, key);
        UpsertField(t, docs, id, key);
      }
    }
  }

  /** The new-document count is the number of distinct `_id`s of the list that were absent. */
  lemma {:induction false} NewCountIsAbsentIds(s: Store, docs: seq<Doc>)
    ensures NewCount(s, docs) == |IdSet(docs) - s.Keys|
    decreases |docs|
  {
    if docs == [] {
      assert IdSet(docs) == {};
    } else {
      var d := docs[0];
      var s' := UpsertOne(s, d);
      NewCountIsAbsentIds(s', docs[1..]);
      assert s'.Keys == s.Keys + {d.id};
      AbsentStep(IdSet(docs[1..]), s.Keys, d.id);
    }
  }

  lemma AbsentStep(rest: set<Id>, keys: set<Id>, x: Id)
    ensures |({x} + rest) - keys| == (if x in keys then 0 else 1) + |rest - (keys + {x})|
  {
    if x in keys {
      assert ({x} + rest) - keys == rest - (keys + {x});
    } else {
      assert ({x} + rest) - keys == {x} + (rest - (keys + {x}));
    }
  }

  /** A second application of the same list counts every entry as updated. */
  lemma SecondRunAllUpdated(s: Store, docs: seq<Doc>)
    ensures NewCount(Upsert(s, docs), docs) == 0
    ensures UpdatedCount(Upsert(s, docs), docs) == |docs|
  {
    UpsertKeys(s, docs);
    NewCountIsAbsentIds(Upsert(s, docs), docs);
    assert IdSet(docs) - Upsert(s, docs).Keys == {};
    CountsAddUp(Upsert(s, docs), docs);
  }

  /** A database: collections by name. */
  function Collection(db: map<string, Store>, name: string): Store {
    if name in db then db[name] else map[]
  }

  /** The connection object of src/_drv_mongodb.py; `db` is the database it is bound to. */
  class MongoCnx {
    var db: map<string, Store>

    constructor (initial: map<string, Store>)
      ensures db == initial
    {
      db := initial;
    }

    /**
      `update_collection(collection, document_list)`: upsert every entry in list order,
      counting the entries that inserted a document and those that updated one.
    */
    method UpdateCollection(collection: string, documentList: seq<Doc>) returns (newCount: nat, updatedCount: nat)
      modifies this
      ensures db == old(db)[collection := Upsert(Collection(old(db), collection), documentList)]
      ensures newCount == NewCount(Collection(old(db), collection), documentList)
      ensures updatedCount == UpdatedCount(Collection(old(db), collection), documentList)
      ensures newCount + updatedCount == |documentList|
    {
      var coll := Collection(db, collection);
      ghost var start := coll;
      db := db[collection := coll];
      newCount, updatedCount := 0, 0;
      for i := 0 to |documentList|
        invariant coll == Upsert(start, documentList[..i])
        invariant db == old(db)[collection := coll]
        invariant newCount == NewCount(start, documentList[..i])
        invariant updatedCount == UpdatedCount(start, documentList[..i])
      {
        var document := documentList[i];
        UpsertStep(start, documentList, i);
        if document.id in coll {
          updatedCount := updatedCount + 1;
        } else {
          newCount := newCount + 1;
        }
        coll := UpsertOne(coll, document);
        Overwrite(old(db), collection, db[collection], coll);
        db := db[collection := coll];
      }
      assert documentList[..|documentList|] == documentList;
      CountsAddUp(start, documentList);
    }
  }
}
