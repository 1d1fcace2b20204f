/**
 * A MongoDB collection as the dashboard service sees it through Mongoose:
 * documents in their natural (insertion) order, each with an object id and
 * a `createdAt` timestamp. The class offers the handful of model calls the
 * service makes (`create`, `findById`, `findByIdAndUpdate`,
 * `findByIdAndDelete`, `findOne`, `findOneAndUpdate`, `find` with a filter or
 * sorted by `createdAt`), each proved against a function on the sequence of
 * documents.
 */
module Collections {
  import opened Wrappers
  import Js

  /** An object id in its string form. */
  type Id = string

  datatype Doc = Doc(id: Id, createdAt: int, fields: Js.Object)

  predicate IdsUnique(docs: seq<Doc>)
  {
    forall i, j :: 0 <= i < j < |docs| ==> docs[i].id != docs[j].id
  }

  predicate Holds(docs: seq<Doc>, id: Id)
  {
    exists i :: 0 <= i < |docs| && docs[i].id == id
  }

  /** The position of the first document with id `id`, if any. */
  function IndexOf(docs: seq<Doc>, id: Id): (r: Option<nat>)
    ensures r.None? <==> !Holds(docs, id)
    ensures r.Some? ==> r.value < |docs| && docs[r.value].id == id
    ensures r.Some? ==> forall i :: 0 <= i < r.value ==> docs[i].id != id
  {
    if docs == [] then None
    else if docs[0].id == id then Some(0)
    else
      match IndexOf(docs[1..], id)
      case None =>
        assert forall i :: 1 <= i < |docs| ==> docs[i] == docs[1..][i - 1];
        None
      case Some(k) => Some(k + 1)
  }

  /**
   * A strict Mongoose schema: the paths it declares, and those of them that
   * are arrays. Whatever a write names outside `paths` is dropped.
   */
  datatype Schema = Schema(paths: set<string>, arrays: set<string>)

  /**
   * What `Model.create` stores for an object of values: the declared paths
   * the object gives a value (properties holding `undefined` are dropped),
   * and an empty array for every array path it leaves out.
   */
  function Stored(schema: Schema, o: Js.Object): (r: Js.Object)
    ensures forall k :: k in r <==> k in schema.paths && (Js.Get(o, k) != Js.Undefined || k in schema.arrays)
    ensures forall k :: k in r && Js.Get(o, k) != Js.Undefined ==> r[k] == o[k]
    ensures forall k :: k in r && Js.Get(o, k) == Js.Undefined ==> r[k] == Js.Arr([])
  {
    map k | k in schema.paths && (Js.Get(o, k) != Js.Undefined || k in schema.arrays) ::
      if Js.Get(o, k) != Js.Undefined then o[k] else Js.Arr([])
  }

  /**
   * A `$set` of `patch`: every declared path the patch gives a value takes
   * it; every other property keeps its value.
   */
  function SetFields(schema: Schema, fields: Js.Object, patch: Js.Object): (r: Js.Object)
    ensures forall k :: k in schema.paths && Js.Get(patch, k) != Js.Undefined ==> Js.Get(r, k) == Js.Get(patch, k)
    ensures forall k :: !(k in schema.paths && Js.Get(patch, k) != Js.Undefined) ==> Js.Get(r, k) == Js.Get(fields, k)
    ensures fields.Keys <= schema.paths ==> r.Keys <= schema.paths
  {
    fields + map k | k in schema.paths && Js.Get(patch, k) != Js.Undefined :: patch[k]
  }

  /** The documents without the one whose id is `id`, in the same order. */
  function Remove(docs: seq<Doc>, id: Id): (r: seq<Doc>)
    ensures !Holds(docs, id) ==> r == docs
    ensures Holds(docs, id) ==> |r| == |docs| - 1
    ensures Holds(docs, id) ==> exists i :: 0 <= i < |docs| && docs[i].id == id && r == docs[..i] + docs[i + 1..]
    ensures IdsUnique(docs) ==> IdsUnique(r) && forall d :: d in r <==> d in docs && d.id != id
  {
    match IndexOf(docs, id)
    case None => docs
    case Some(i) =>
      RemoveAt(docs, i);
      docs[..i] + docs[i + 1..]
  }

  /** Cutting out the document at `i` leaves exactly the others, ids still unique. */
  lemma RemoveAt(docs: seq<Doc>, i: nat)
    requires i < |docs|
    ensures IdsUnique(docs) ==> IdsUnique(docs[..i] + docs[i + 1..])
    ensures IdsUnique(docs) ==> forall d :: d in docs[..i] + docs[i + 1..] <==> d in docs && d.id != docs[i].id
  {
    var r := docs[..i] + docs[i + 1..];
    assert forall k :: 0 <= k < |r| ==> r[k] == docs[if k < i then k else k + 1];
    if IdsUnique(docs) {
      forall d | d in docs && d.id != docs[i].id
        ensures d in r
      {
        var k :| 0 <= k < |docs| && docs[k] == d;
        assert k != i;
        assert r[if k < i then k else k - 1] == d;
      }
    }
  }

  /** The documents whose property `key` equals `value`, in their natural order: `find({ key: value })`. */
  function Where(docs: seq<Doc>, key: string, value: Js.JsValue): (r: seq<Doc>)
    ensures forall d :: d in r <==> d in docs && Js.Get(d.fields, key) == value
    ensures |r| <= |docs|
  {
    if docs == [] then []
    else
      var rest := Where(docs[1..], key, value);
      assert forall d :: d in docs[1..] ==> d in docs;
      assert forall i :: 1 <= i < |docs| ==> docs[i] == docs[1..][i - 1];
      if Js.Get(docs[0].fields, key) == value then [docs[0]] + rest else rest
  }

  /** Sorted by `createdAt`, newest first. */
  predicate NewestFirst(s: seq<Doc>)
  {
    forall i, j :: 0 <= i < j < |s| ==> s[i].createdAt >= s[j].createdAt
  }

  /** Putting a document at the front keeps the order when it is no older than the first. */
  lemma PrependNewest(d: Doc, s: seq<Doc>)
    requires NewestFirst(s)
    requires s == [] || d.createdAt >= s[0].createdAt
    ensures NewestFirst([d] + s)
  {
  }

  function Insert(d: Doc, s: seq<Doc>): (r: seq<Doc>)
    requires NewestFirst(s)
    ensures NewestFirst(r)
    ensures multiset(r) == multiset(s) + multiset{d}
    ensures r[0] == d || (s != [] && r[0] == s[0])
  {
    if s == [] || d.createdAt >= s[0].createdAt then
      PrependNewest(d, s);
      [d] + s
    else
      var rest := Insert(d, s[1..]);
      assert s == [s[0]] + s[1..];
      PrependNewest(s[0], rest);
      [s[0]] + rest
  }

  /** `sort({ createdAt: -1 })`: the same documents, newest first. */
  function SortNewestFirst(s: seq<Doc>): (r: seq<Doc>)
    ensures NewestFirst(r)
    ensures multiset(r) == multiset(s)
  {
    if s == [] then []
    else
      assert s == [s[0]] + s[1..];
      Insert(s[0], SortNewestFirst(s[1..]))
  }

  /** One collection of documents. */
  class Collection {
    /** The documents in natural order. */
    var docs: seq<Doc>
    /** `Types.ObjectId.isValid`. */
    const validId: Id -> bool
    /** The model's schema. */
    const schema: Schema

    /** Ids are unique and well formed, and every document holds only declared paths. */
    ghost predicate Valid()
      reads this
    {
      && IdsUnique(docs)
      && (forall i :: 0 <= i < |docs| ==> validId(docs[i].id))
      && (forall i :: 0 <= i < |docs| ==> docs[i].fields.Keys <= schema.paths)
    }

    constructor (validId: Id -> bool, schema: Schema)
      ensures Valid() && docs == [] && this.validId == validId && this.schema == schema
    {
      docs := [];
      this.validId := validId;
      this.schema := schema;
    }

    /** `Model.create(fields)`: the database chose the fresh id `id` and the clock read `now`. */
    method Create(id: Id, now: int, fields: Js.Object) returns (d: Doc)
      requires Valid() && validId(id) && !Holds(docs, id)
      modifies this
      ensures Valid()
      ensures d == Doc(id, now, Stored(schema, fields))
      ensures docs == old(docs) + [d]
    {
      d := Doc(id, now, Stored(schema, fields));
      docs := docs + [d];
    }

    /** `Model.findById(id)`, for an id that is well formed. */
    method FindById(id: Id) returns (r: Option<Doc>)
      requires Valid() && validId(id)
      ensures r.None? <==> !Holds(docs, id)
      ensures r.Some? ==> r.value in docs && r.value.id == id
    {
      var i := IndexOf(docs, id);
      if i.None? {
        return None;
      }
      r := Some(docs[i.value]);
    }

    /** `Model.findByIdAndDelete(id)`, for an id that is well formed. */
    method DeleteById(id: Id) returns (r: Option<Doc>)
      requires Valid() && validId(id)
      modifies this
      ensures Valid()
      ensures r.None? <==> !old(Holds(docs, id))
      ensures r.Some? ==> r.value in old(docs) && r.value.id == id
      ensures docs == Remove(old(docs), id)
    {
      var i := IndexOf(docs, id);
      if i.None? {
        return None;
      }
      r := Some(docs[i.value]);
      docs := Remove(docs, id);
    }

    /** `Model.findByIdAndUpdate(id, patch, { new: true })`, for an id that is well formed. */
    method UpdateById(id: Id, patch: Js.Object) returns (r: Option<Doc>)
      requires Valid() && validId(id)
      modifies this
      ensures Valid()
      ensures r.None? <==> !old(Holds(docs, id))
      ensures r.None? ==> docs == old(docs)
      ensures r.Some? ==> exists i :: 0 <= i < |old(docs)| && old(docs)[i].id == id
                                    && r.value == old(docs)[i].(fields := SetFields(schema, old(docs)[i].fields, patch))
                                    && docs == old(docs)[i := r.value]
    {
      var i := IndexOf(docs, id);
      if i.None? {
        return None;
      }
      var d := docs[i.value];
      var updated := d.(fields := SetFields(schema, d.fields, patch));
      docs := docs[i.value := updated];
      r := Some(updated);
    }

    /** `Model.findOne()`: the first document in natural order. */
    method FindOne() returns (r: Option<Doc>)
      ensures r.None? <==> docs == []
      ensures r.Some? ==> r.value == docs[0]
    {
      if docs == [] {
        return None;
      }
      r := Some(docs[0]);
    }

    /** `Model.findOneAndUpdate({}, patch, { new: true })`: updates the first document, if there is one. */
    method UpdateFirst(patch: Js.Object) returns (r: Option<Doc>)
      requires Valid()
      modifies this
      ensures Valid()
      ensures r.None? <==> old(docs) == []
      ensures r.None? ==> docs == old(docs)
      ensures r.Some? ==> r.value == old(docs)[0].(fields := SetFields(schema, old(docs)[0].fields, patch))
                          && docs == old(docs)[0 := r.value]
    {
      if docs == [] {
        return None;
      }
      var updated := docs[0].(fields := SetFields(schema, docs[0].fields, patch));
      docs := docs[0 := updated];
      r := Some(updated);
    }

    /** `Model.find()`: every document, in natural order. */
    method FindAll() returns (r: seq<Doc>)
      ensures r == docs
    {
      r := docs;
    }

    /** `Model.find({ key: value })`. */
    method FindWhere(key: string, value: Js.JsValue) returns (r: seq<Doc>)
      ensures forall d :: d in r <==> d in docs && Js.Get(d.fields, key) == value
      ensures r == Where(docs, key, value)
    {
      r := Where(docs, key, value);
    }

    /** `Model.find().sort({ createdAt: -1 })`: every document, newest first. */
    method FindNewestFirst() returns (r: seq<Doc>)
      ensures NewestFirst(r) && multiset(r) == multiset(docs)
      ensures r == SortNewestFirst(docs)
    {
      r := SortNewestFirst(docs);
    }

    /** `Model.countDocuments()`. */
    method Count() returns (n: nat)
      ensures n == |docs|
    {
      n := |docs|;
    }
  }
}
