/**
 * The dashboard content service: the rules it applies on top of its
 * collections. Content items (sectors, updates, events, newsletters, CSR
 * entries, awards) are created from a title, a description and an optional
 * uploaded image; people are created from a mapped request body; six
 * singleton collections (terms, privacy, disclaimer, fraud, about, about
 * counters) are upserted; subscribers are deduplicated by email; contact
 * forms and subscribers are listed a page at a time, newest first.
 */
module Dashboard {
  import opened Wrappers
  import Js
  import opened Collections

  const ImageDir := "/images/image/"
  const ProfileDir := "/images/profile/"
  const MsgInvalidPersonId := "Invalid Person ID"
  const MsgNegativeSkip := "skip value must be non-negative"

  /** The schema of sectors, updates, events, newsletters, CSR entries and awards. */
  const ItemSchema := Schema({"title", "description", "image"}, {})
  /** The schema of people: no `experience`, `affiliation` or `socialLinks`. */
  const PersonSchema := Schema({"fullName", "position", "email", "phoneNumber", "bio", "professional", "education",
                                "barAdmission", "awards", "practice", "industry", "order", "category", "profile_image"},
                               ArrayKeys)
  const SubscriberSchema := Schema({"email"}, {})
  const ContactFormSchema := Schema({"phone", "email", "message"}, {})

  // ------------------------------------------------------------ content items

  /** The stored image path of an upload: the first file of the `image` field, if any. */
  function ItemImage(upload: seq<string>): (r: Js.JsValue)
    ensures |upload| > 0 <==> r != Js.Undefined
    ensures |upload| > 0 ==> r == Js.Str(ImageDir + upload[0])
  {
    if |upload| > 0 then Js.Str(ImageDir + upload[0]) else Js.Undefined
  }

  /** The payload of a content item: title and description from the body, and the image when one was uploaded. */
  function ItemPayload(body: Js.Object, upload: seq<string>): (r: Js.Object)
    ensures forall k :: Js.Get(r, k) != Js.Undefined ==> k in {"title", "description", "image"}
    ensures Js.Get(r, "title") == Js.Get(body, "title") && Js.Get(r, "description") == Js.Get(body, "description")
    ensures Js.Get(r, "image") == ItemImage(upload)
  {
    var base := map["title" := Js.Get(body, "title"), "description" := Js.Get(body, "description")];
    if |upload| > 0 then base["image" := ItemImage(upload)] else base
  }

  /** `createSector`, `createUpdates`, `createEvents`, `createNewsletters`, `createCSR`, `createAward`. */
  method CreateItem(c: Collection, id: Id, now: int, body: Js.Object, upload: seq<string>) returns (d: Doc)
    requires c.Valid() && c.schema == ItemSchema && c.validId(id) && !Holds(c.docs, id)
    modifies c
    ensures c.Valid() && c.docs == old(c.docs) + [d]
    ensures d.id == id && d.createdAt == now
    ensures Js.Get(d.fields, "title") == Js.Get(body, "title")
    ensures Js.Get(d.fields, "description") == Js.Get(body, "description")
    ensures ("image" in d.fields <==> |upload| > 0) && Js.Get(d.fields, "image") == ItemImage(upload)
    ensures d.fields.Keys <= {"title", "description", "image"}
  {
    d := c.Create(id, now, ItemPayload(body, upload));
  }

  /** `getAllSectors` and the other `getAll…` of content items: every document, newest first. */
  method GetAll(c: Collection) returns (r: seq<Doc>)
    ensures NewestFirst(r) && multiset(r) == multiset(c.docs)
  {
    r := c.FindNewestFirst();
  }

  /** `getPersonById`, `getSectorById` and the other `get…ById`: a malformed id finds nothing without a lookup. */
  method GetById(c: Collection, id: Id) returns (r: Option<Doc>)
    requires c.Valid()
    ensures !c.validId(id) ==> r.None?
    ensures c.validId(id) ==> (r.Some? <==> Holds(c.docs, id))
    ensures r.Some? ==> r.value in c.docs && r.value.id == id
  {
    if !c.validId(id) {
      return None;
    }
    r := c.FindById(id);
  }

  /** `deletePerson`, `deleteSector` and the other `delete…`: true exactly when a document with that id was removed. */
  method Delete(c: Collection, id: Id) returns (deleted: bool)
    requires c.Valid()
    modifies c
    ensures c.Valid()
    ensures deleted <==> c.validId(id) && old(Holds(c.docs, id))
    ensures c.docs == if c.validId(id) then Remove(old(c.docs), id) else old(c.docs)
  {
    if !c.validId(id) {
      return false;
    }
    var gone := c.DeleteById(id);
    deleted := gone.Some?;
  }

  /** `updateSector`, `updateUpdates`, `updateEvents`, `updateNewsletters`: the body's fields are set as given. */
  method UpdateItem(c: Collection, id: Id, body: Js.Object, upload: seq<string>) returns (r: Option<Doc>)
    requires c.Valid() && c.schema == ItemSchema
    modifies c
    ensures c.Valid()
    ensures r.None? <==> !c.validId(id) || !old(Holds(c.docs, id))
    ensures r.None? ==> c.docs == old(c.docs)
    ensures r.Some? ==> exists i :: 0 <= i < |old(c.docs)| && old(c.docs)[i].id == id
                                  && r.value == old(c.docs)[i].(fields := SetFields(ItemSchema, old(c.docs)[i].fields, ItemPayload(body, upload)))
                                  && c.docs == old(c.docs)[i := r.value]
  {
    if !c.validId(id) {
      return None;
    }
    r := c.UpdateById(id, ItemPayload(body, upload));
  }

  /**
   * The update of `updateCSR` and `updateAward`: title and description fall
   * back to the stored values when the body's are null or undefined, and the
   * stored image is kept unless a new one was uploaded.
   */
  function MergedPatch(existing: Js.Object, body: Js.Object, upload: seq<string>): (r: Js.Object)
    ensures r.Keys == {"title", "description", "image"}
    ensures r["image"] == if |upload| > 0 then ItemImage(upload) else Js.Get(existing, "image")
  {
    map[
      "title" := Js.Coalesce(Js.Get(body, "title"), Js.Get(existing, "title")),
      "description" := Js.Coalesce(Js.Get(body, "description"), Js.Get(existing, "description")),
      "image" := if |upload| > 0 then ItemImage(upload) else Js.Get(existing, "image")
    ]
  }

  /** The fields a merge-on-update leaves in the document. */
  function Merged(fields: Js.Object, body: Js.Object, upload: seq<string>): (r: Js.Object)
  {
    SetFields(ItemSchema, fields, MergedPatch(fields, body, upload))
  }

  /**
   * What the merge promises: a null or undefined body field keeps the stored
   * value, any other replaces it; the image changes only with an upload; no
   * other field changes.
   */
  lemma MergeFallsBack(fields: Js.Object, body: Js.Object, upload: seq<string>)
    ensures forall k :: k in {"title", "description"} ==>
              Js.Get(Merged(fields, body, upload), k)
              == if Js.Get(body, k).Undefined? || Js.Get(body, k).Null? then Js.Get(fields, k) else Js.Get(body, k)
    ensures Js.Get(Merged(fields, body, upload), "image") == if |upload| > 0 then ItemImage(upload) else Js.Get(fields, "image")
    ensures forall k :: k !in {"title", "description", "image"} ==> Js.Get(Merged(fields, body, upload), k) == Js.Get(fields, k)
  {
    var patch := MergedPatch(fields, body, upload);
    forall k | k in {"title", "description"}
      ensures Js.Get(Merged(fields, body, upload), k)
              == if Js.Get(body, k).Undefined? || Js.Get(body, k).Null? then Js.Get(fields, k) else Js.Get(body, k)
    {
      assert patch[k] == Js.Coalesce(Js.Get(body, k), Js.Get(fields, k));
    }
  }

  /** Sending the same update twice leaves the document as after the first. */
  lemma MergeIdempotent(fields: Js.Object, body: Js.Object, upload: seq<string>)
    ensures Merged(Merged(fields, body, upload), body, upload) == Merged(fields, body, upload)
  {
    var once := Merged(fields, body, upload);
    var twice := Merged(once, body, upload);
    MergeFallsBack(fields, body, upload);
    MergeFallsBack(once, body, upload);
    forall k | k in once
      ensures k in twice && twice[k] == once[k]
    {
      assert Js.Get(twice, k) == Js.Get(once, k);
    }
    forall k | k in twice
      ensures k in once
    {
      assert Js.Get(twice, k) == Js.Get(once, k);
    }
  }

  /** `updateCSR` and `updateAward`. */
  method UpdateMerged(c: Collection, id: Id, body: Js.Object, upload: seq<string>) returns (r: Option<Doc>)
    requires c.Valid() && c.schema == ItemSchema
    modifies c
    ensures c.Valid()
    ensures r.None? <==> !c.validId(id) || !old(Holds(c.docs, id))
    ensures r.None? ==> c.docs == old(c.docs)
    ensures r.Some? ==> exists i :: 0 <= i < |old(c.docs)| && old(c.docs)[i].id == id
                                  && r.value == old(c.docs)[i].(fields := Merged(old(c.docs)[i].fields, body, upload))
                                  && c.docs == old(c.docs)[i := r.value]
  {
    if !c.validId(id) {
      return None;
    }
    var existing := c.FindById(id);
    if existing.None? {
      return None;
    }
    r := c.UpdateById(id, MergedPatch(existing.value.fields, body, upload));
  }

  // ------------------------------------------------------------------ people

  /** `parseArray`: a string is parsed as JSON, `[]` when that fails; anything else is returned as it is. */
  function ParseArray(v: Js.JsValue, parse: string -> Option<Js.JsValue>): (r: Js.JsValue)
    ensures !v.Str? ==> r == v
    ensures v.Str? && parse(v.s).None? ==> r == Js.Arr([])
    ensures v.Str? && parse(v.s).Some? ==> r == parse(v.s).value
  {
    if v.Str? then
      match parse(v.s)
      case None => Js.Arr([])
      case Some(x) => x
    else v
  }

  /** Properties of a person copied from the body as they are. */
  const PlainKeys: set<string> :=
    {"fullName", "position", "email", "category", "phoneNumber", "bio", "education", "barAdmission", "experience", "affiliation"}
  /** Properties of a person that may arrive as JSON text. */
  const ArrayKeys: set<string> := {"professional", "awards", "practice", "industry"}
  /** Properties of the body gathered under `socialLinks`. */
  const SocialKeys: set<string> := {"facebook", "twitter", "instagram", "linkedin"}

  lemma PersonKeysDisjoint()
    ensures "profile_image" !in PlainKeys + ArrayKeys + {"socialLinks"}
    ensures "socialLinks" !in PlainKeys + ArrayKeys
    ensures forall k :: k in PlainKeys ==> k !in ArrayKeys
  {
  }

  /** The value a person's property `k` takes from the body. */
  function PersonField(body: Js.Object, k: string, parse: string -> Option<Js.JsValue>): (v: Js.JsValue)
  {
    if k in ArrayKeys then ParseArray(Js.Get(body, k), parse)
    else if k == "socialLinks" then Js.Obj(map s | s in SocialKeys :: Js.Get(body, s))
    else Js.Get(body, k)
  }

  /**
   * `mapPersonFields`: the plain properties copied from the body, the list
   * ones parsed, the four social links gathered into one object, and the
   * profile image only when there is one.
   */
  function MapPersonFields(body: Js.Object, profileImage: Option<string>, parse: string -> Option<Js.JsValue>): (r: Js.Object)
    ensures "profile_image" in r <==> profileImage.Some? && profileImage.value != ""
    ensures "profile_image" in r ==> r["profile_image"] == Js.Str(profileImage.value)
    ensures r.Keys - {"profile_image"} == PlainKeys + ArrayKeys + {"socialLinks"}
    ensures forall k :: k in PlainKeys ==> r[k] == Js.Get(body, k)
    ensures forall k :: k in ArrayKeys ==> r[k] == ParseArray(Js.Get(body, k), parse)
    ensures r["socialLinks"].Obj? && r["socialLinks"].props.Keys == SocialKeys
    ensures forall k :: k in SocialKeys ==> r["socialLinks"].props[k] == Js.Get(body, k)
  {
    PersonKeysDisjoint();
    var fields := map k | k in PlainKeys + ArrayKeys + {"socialLinks"} :: PersonField(body, k, parse);
    if profileImage.Some? && profileImage.value != "" then fields["profile_image" := Js.Str(profileImage.value)] else fields
  }

  /** The profile image path of `createPerson` and `updatePerson`: the first file of `profile_image`, if any. */
  function ProfileImage(upload: seq<string>): (r: Option<string>)
    ensures r.Some? <==> |upload| > 0
    ensures r.Some? ==> r.value == ProfileDir + upload[0] && r.value != ""
  {
    if |upload| > 0 then Some(ProfileDir + upload[0]) else None
  }

  /**
   * `createPerson`: the profile image is stored exactly when one was
   * uploaded, the list properties are always stored, and the mapped
   * properties the schema does not declare are dropped.
   */
  method CreatePerson(c: Collection, id: Id, now: int, body: Js.Object, upload: seq<string>,
                      parse: string -> Option<Js.JsValue>) returns (d: Doc)
    requires c.Valid() && c.schema == PersonSchema && c.validId(id) && !Holds(c.docs, id)
    modifies c
    ensures c.Valid() && c.docs == old(c.docs) + [d]
    ensures d == Doc(id, now, Stored(PersonSchema, MapPersonFields(body, ProfileImage(upload), parse)))
    ensures ("profile_image" in d.fields <==> |upload| > 0)
    ensures |upload| > 0 ==> d.fields["profile_image"] == Js.Str(ProfileDir + upload[0])
    ensures forall k :: k in ArrayKeys ==> k in d.fields
    ensures "experience" !in d.fields && "affiliation" !in d.fields && "socialLinks" !in d.fields
  {
    PersonSchemaPaths();
    var fields := MapPersonFields(body, ProfileImage(upload), parse);
    d := c.Create(id, now, fields);
  }

  /** `updatePerson`: unlike the other updates, a malformed id is an error. */
  method UpdatePerson(c: Collection, id: Id, body: Js.Object, upload: seq<string>,
                      parse: string -> Option<Js.JsValue>) returns (r: Result<Option<Doc>, string>)
    requires c.Valid() && c.schema == PersonSchema
    modifies c
    ensures c.Valid()
    ensures r.Failure? <==> !c.validId(id)
    ensures r.Failure? ==> r.error == MsgInvalidPersonId
    ensures r == Success(None) <==> c.validId(id) && !old(Holds(c.docs, id))
    ensures r.Failure? || r == Success(None) ==> c.docs == old(c.docs)
    ensures r.Success? && r.value.Some? ==>
              exists i :: 0 <= i < |old(c.docs)| && old(c.docs)[i].id == id
                          && r.value.value == old(c.docs)[i].(fields := SetFields(PersonSchema, old(c.docs)[i].fields,
                                                                  MapPersonFields(body, ProfileImage(upload), parse)))
                          && c.docs == old(c.docs)[i := r.value.value]
  {
    if !c.validId(id) {
      return Failure(MsgInvalidPersonId);
    }
    var updated := c.UpdateById(id, MapPersonFields(body, ProfileImage(upload), parse));
    r := Success(updated);
  }

  /** Which of the properties `mapPersonFields` produces the Person schema declares. */
  lemma PersonSchemaPaths()
    ensures "profile_image" in PersonSchema.paths && "profile_image" !in PersonSchema.arrays
    ensures ArrayKeys <= PersonSchema.paths
    ensures "experience" !in PersonSchema.paths && "affiliation" !in PersonSchema.paths
    ensures "socialLinks" !in PersonSchema.paths
  {
  }

  /**
   * Neither a new person nor an update ever writes `experience`,
   * `affiliation` or `socialLinks`, although `mapPersonFields` produces them:
   * the schema does not declare them.
   */
  lemma PersonUnmappedNeverWritten(fields: Js.Object, body: Js.Object, profileImage: Option<string>,
                                   parse: string -> Option<Js.JsValue>)
    ensures forall k :: k in {"experience", "affiliation", "socialLinks"} ==>
              && k in MapPersonFields(body, profileImage, parse)
              && k !in Stored(PersonSchema, MapPersonFields(body, profileImage, parse))
              && Js.Get(SetFields(PersonSchema, fields, MapPersonFields(body, profileImage, parse)), k) == Js.Get(fields, k)
  {
    PersonSchemaPaths();
    PersonKeysDisjoint();
  }

  /** `getAllPeople`: a truthy category selects the people of that category, in natural order. */
  method GetAllPeople(c: Collection, category: Js.JsValue) returns (r: seq<Doc>)
    ensures Js.Truthy(category) ==> forall d :: d in r <==> d in c.docs && Js.Get(d.fields, "category") == category
    ensures Js.Truthy(category) ==> r == Where(c.docs, "category", category)
    ensures !Js.Truthy(category) ==> r == c.docs
  {
    if Js.Truthy(category) {
      r := c.FindWhere("category", category);
    } else {
      r := c.FindAll();
    }
  }

  // -------------------------------------------------------------- singletons

  /**
   * `addTermsConditions`, `addPrivacyPolicy`, `addDisclaimerPolicy`,
   * `upsertFraud`, `upsertAboutUs`, `upsertAboutCount`: the payload is set on
   * the first document, or becomes the only one when there is none.
   */
  function Upserted(schema: Schema, docs: seq<Doc>, id: Id, now: int, payload: Js.Object): (r: seq<Doc>)
    ensures |r| == if docs == [] then 1 else |docs|
    ensures docs != [] ==> r[0] == docs[0].(fields := SetFields(schema, docs[0].fields, payload)) && r[1..] == docs[1..]
    ensures docs == [] ==> r == [Doc(id, now, Stored(schema, payload))]
    ensures forall k :: k in schema.paths && Js.Get(payload, k) != Js.Undefined ==> Js.Get(r[0].fields, k) == Js.Get(payload, k)
  {
    if docs == [] then [Doc(id, now, Stored(schema, payload))]
    else docs[0 := docs[0].(fields := SetFields(schema, docs[0].fields, payload))]
  }

  /** A singleton collection stays a singleton. */
  lemma UpsertKeepsSingleton(schema: Schema, docs: seq<Doc>, id: Id, now: int, payload: Js.Object)
    requires |docs| <= 1
    ensures |Upserted(schema, docs, id, now, payload)| == 1
  {
  }

  /** Upserting the same payload again changes nothing. */
  lemma UpsertIdempotent(schema: Schema, docs: seq<Doc>, id: Id, now: int, id2: Id, now2: int, payload: Js.Object)
    ensures Upserted(schema, Upserted(schema, docs, id, now, payload), id2, now2, payload) == Upserted(schema, docs, id, now, payload)
  {
    var once := Upserted(schema, docs, id, now, payload);
    var f := once[0].fields;
    var g := SetFields(schema, f, payload);
    forall k | k in f
      ensures k in g && g[k] == f[k]
    {
      if !(k in schema.paths && Js.Get(payload, k) != Js.Undefined) {
        assert Js.Get(g, k) == Js.Get(f, k);
      } else {
        assert Js.Get(g, k) == Js.Get(payload, k);
      }
    }
    assert g == f;
    assert once[0 := once[0].(fields := g)] == once;
  }

  method Upsert(c: Collection, id: Id, now: int, payload: Js.Object) returns (d: Doc)
    requires c.Valid() && c.validId(id) && !Holds(c.docs, id)
    modifies c
    ensures c.Valid()
    ensures c.docs == Upserted(c.schema, old(c.docs), id, now, payload) && d == c.docs[0]
  {
    var first := c.FindOne();
    if first.Some? {
      var updated := c.UpdateFirst(payload);
      d := updated.value;
    } else {
      d := c.Create(id, now, payload);
    }
  }

  // ------------------------------------------------------------- subscribers

  /** No two subscribers share an email. */
  predicate EmailsUnique(docs: seq<Doc>)
  {
    forall i, j :: 0 <= i < j < |docs| ==> Js.Get(docs[i].fields, "email") != Js.Get(docs[j].fields, "email")
  }

  /** `submitSubscribe` on the store: a new subscriber is added only for an email not yet subscribed. */
  function Subscribed(docs: seq<Doc>, id: Id, now: int, payload: Js.Object): (r: seq<Doc>)
    ensures Where(docs, "email", Js.Get(payload, "email")) != [] ==> r == docs
    ensures Where(docs, "email", Js.Get(payload, "email")) == [] ==> r == docs + [Doc(id, now, Stored(SubscriberSchema, payload))]
    ensures EmailsUnique(docs) ==> EmailsUnique(r)
  {
    if Where(docs, "email", Js.Get(payload, "email")) != [] then docs
    else
      var d := Doc(id, now, Stored(SubscriberSchema, payload));
      assert Js.Get(d.fields, "email") == Js.Get(payload, "email");
      assert forall i :: 0 <= i < |docs| ==> docs[i] in docs && Js.Get(docs[i].fields, "email") != Js.Get(payload, "email");
      docs + [d]
  }

  /** Subscribing the same payload twice is subscribing once. */
  lemma {:induction false} SubscribeIdempotent(docs: seq<Doc>, id: Id, now: int, id2: Id, now2: int, payload: Js.Object)
    ensures Subscribed(Subscribed(docs, id, now, payload), id2, now2, payload) == Subscribed(docs, id, now, payload)
  {
    var once := Subscribed(docs, id, now, payload);
    var e := Js.Get(payload, "email");
    if Where(docs, "email", e) == [] {
      var d := Doc(id, now, Stored(SubscriberSchema, payload));
      assert d in once && Js.Get(d.fields, "email") == e;
      assert d in Where(once, "email", e);
    }
  }

  /** `submitSubscribe`: the existing subscriber with that email, or a new one. */
  method SubmitSubscribe(c: Collection, id: Id, now: int, payload: Js.Object) returns (d: Doc)
    requires c.Valid() && c.schema == SubscriberSchema && c.validId(id) && !Holds(c.docs, id)
    modifies c
    ensures c.Valid()
    ensures c.docs == Subscribed(old(c.docs), id, now, payload)
    ensures d in c.docs && Js.Get(d.fields, "email") == Js.Get(payload, "email")
    ensures old(Where(c.docs, "email", Js.Get(payload, "email"))) != [] ==> d == old(Where(c.docs, "email", Js.Get(payload, "email")))[0]
  {
    var existing := c.FindWhere("email", Js.Get(payload, "email"));
    if existing != [] {
      assert existing[0] in existing;
      return existing[0];
    }
    d := c.Create(id, now, payload);
  }

  /** `submitContactForm`: the form's phone, email and message are stored as a new document; nothing else is. */
  method SubmitContactForm(c: Collection, id: Id, now: int, payload: Js.Object) returns (d: Doc)
    requires c.Valid() && c.schema == ContactFormSchema && c.validId(id) && !Holds(c.docs, id)
    modifies c
    ensures c.Valid() && c.docs == old(c.docs) + [d]
    ensures d == Doc(id, now, Stored(ContactFormSchema, payload))
    ensures d.fields.Keys <= {"phone", "email", "message"}
    ensures forall k :: k in {"phone", "email", "message"} ==> Js.Get(d.fields, k) == Js.Get(payload, k)
  {
    d := c.Create(id, now, payload);
  }

  // -------------------------------------------------------------- pagination

  /** A JavaScript number that `Math.ceil(total / limit)` can produce. */
  datatype PageCount = Pages(n: int) | Infinity | NaN

  /** `Math.ceil(total / limit)`, where dividing by zero gives Infinity, or NaN for 0 / 0. */
  function CeilDiv(total: nat, limit: int): (r: PageCount)
    ensures limit == 0 ==> r == if total == 0 then NaN else Infinity
    ensures limit != 0 ==> r.Pages?
    ensures limit > 0 ==> r.n >= 0 && r.n * limit >= total && (r.n == 0 || (r.n - 1) * limit < total)
    ensures limit < 0 ==> r.n <= 0 && r.n * limit <= total && total < (r.n - 1) * limit
  {
    if limit == 0 then (if total == 0 then NaN else Infinity)
    else if limit > 0 then
      var q := (total + limit - 1) / limit;
      assert q * limit + (total + limit - 1) % limit == total + limit - 1;
      Pages(q)
    else
      var q := total / -limit;
      assert q * -limit + total % -limit == total;
      Pages(-q)
  }

  datatype Meta = Meta(total: nat, page: int, limit: int, totalPages: PageCount)
  datatype Page = Page(meta: Meta, data: seq<Doc>)

  function Min(a: int, b: int): int
  {
    if a <= b then a else b
  }

  function Abs(a: int): nat
  {
    if a < 0 then -a else a
  }

  /**
   * `getContactForms` and `getSubscribers` on the documents sorted newest
   * first: skip `(page - 1) * limit` of them and take `limit`, where a limit
   * of 0 takes all and a negative limit takes as many as its absolute value;
   * a negative skip is refused by the database.
   */
  function Paginate(sorted: seq<Doc>, page: int, limit: int): (r: Result<Page, string>)
    ensures r.Failure? <==> (page - 1) * limit < 0
    ensures r.Success? ==> r.value.meta == Meta(|sorted|, page, limit, CeilDiv(|sorted|, limit))
    ensures r.Success? ==> |r.value.data| == if (page - 1) * limit >= |sorted| then 0
                                             else Min(if limit == 0 then |sorted| else Abs(limit), |sorted| - (page - 1) * limit)
    ensures r.Success? ==> forall k :: 0 <= k < |r.value.data| ==> r.value.data[k] == sorted[(page - 1) * limit + k]
  {
    var skip := (page - 1) * limit;
    if skip < 0 then Failure(MsgNegativeSkip)
    else
      var take := if limit == 0 then |sorted| else Abs(limit);
      var start := Min(skip, |sorted|);
      var end := Min(skip + take, |sorted|);
      Success(Page(Meta(|sorted|, page, limit, CeilDiv(|sorted|, limit)), sorted[start..end]))
  }

  /** `getContactForms` and `getSubscribers`. */
  method GetPage(c: Collection, page: int, limit: int) returns (r: Result<Page, string>)
    ensures r == Paginate(SortNewestFirst(c.docs), page, limit)
  {
    var skip := (page - 1) * limit;
    if skip < 0 {
      return Failure(MsgNegativeSkip);
    }
    var sorted := c.FindNewestFirst();
    var total := c.Count();
    var take := if limit == 0 then total else Abs(limit);
    var data := sorted[Min(skip, total)..Min(skip + take, total)];
    r := Success(Page(Meta(total, page, limit, CeilDiv(total, limit)), data));
  }

  /** The data of pages 1 to `k`, one after another. */
  function PagesUpTo(sorted: seq<Doc>, limit: int, k: nat): seq<Doc>
    requires limit > 0
  {
    if k == 0 then []
    else
      assert (k - 1) * limit >= 0;
      PagesUpTo(sorted, limit, k - 1) + Paginate(sorted, k, limit).value.data
  }

  /** The first `k` pages hold exactly the first `k * limit` documents. */
  lemma {:induction false} PagesUpToIsPrefix(sorted: seq<Doc>, limit: int, k: nat)
    requires limit > 0
    ensures PagesUpTo(sorted, limit, k) == sorted[..Min(k * limit, |sorted|)]
  {
    if k > 0 {
      PagesUpToIsPrefix(sorted, limit, k - 1);
      var a := Min((k - 1) * limit, |sorted|);
      var b := Min(k * limit, |sorted|);
      assert (k - 1) * limit + limit == k * limit;
      assert (k - 1) * limit >= 0;
      var data := Paginate(sorted, k, limit).value.data;
      assert data == sorted[a..b];
      assert sorted[..a] + sorted[a..b] == sorted[..b];
    }
  }

  /**
   * For a positive limit, the pages 1 to `totalPages` hold every document
   * exactly once, in order, and every later page is empty.
   */
  lemma PagesCoverAll(sorted: seq<Doc>, limit: int, later: int)
    requires limit > 0
    requires later > CeilDiv(|sorted|, limit).n
    ensures PagesUpTo(sorted, limit, CeilDiv(|sorted|, limit).n) == sorted
    ensures Paginate(sorted, later, limit).Success? && Paginate(sorted, later, limit).value.data == []
  {
    var n := CeilDiv(|sorted|, limit).n;
    PagesUpToIsPrefix(sorted, limit, n);
    assert Min(n * limit, |sorted|) == |sorted|;
    assert sorted[..|sorted|] == sorted;
    MulMonotone(n, later - 1, limit);
  }

  lemma {:induction false} MulMonotone(a: int, b: int, c: nat)
    requires a <= b
    ensures a * c <= b * c
    decreases b - a
  {
    if a < b {
      MulMonotone(a + 1, b, c);
      assert (a + 1) * c == a * c + c;
    }
  }
}
