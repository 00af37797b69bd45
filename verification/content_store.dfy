/** The content store behind `/api/data`: one JSON document on disk whose
    top-level keys are the portfolio sections. Reads return the whole document or
    one section; a write replaces one existing section with the request body.

    The route decides whether a section exists with `data[section] === undefined`.
    On a parsed JSON object that test also sees the names every object inherits
    (`toString`, `constructor`, ...), so the route as written treats those as
    existing sections. `GetSectionAsWritten` and `PutAsWritten` model that test;
    `GetSection` and `Put` model the evidently intended own-key test, and the
    lemmas below state the difference. */
module ContentStore {
  import opened Seqs
  import opened Http

  type Doc = map<string, Json>

  /** The data file: parsed, or unreadable (missing, unparsable) with the error text. */
  datatype Disk = Readable(doc: Doc) | Unreadable(reason: string)

  /** What a handler leaves on disk and answers. */
  datatype Outcome = Outcome(disk: Disk, response: Response)

  /** The data properties a parsed JSON object answers through its prototype.
      Assigning to one of them creates an own key. */
  const Inherited: set<string> := {"constructor", "hasOwnProperty", "isPrototypeOf", "propertyIsEnumerable",
    "toLocaleString", "toString", "valueOf", "__defineGetter__", "__defineSetter__",
    "__lookupGetter__", "__lookupSetter__"}

  /** The accessor every object inherits for its prototype. Reading it gives the
      prototype (`Object.prototype`, which JSON renders as `{}`); assigning an
      object or array to it replaces the prototype and creates no key. A document
      whose file spells out a `__proto__` key holds it as an ordinary own key. */
  const ProtoName: string := "__proto__"

  function NotFoundText(s: string): string
  {
    "Section \"" + s + "\" not found"
  }

  function UpdatedText(s: string): string
  {
    "Section \"" + s + "\" updated successfully"
  }

  /** `GET /api/data`: the whole document, or 500 when the file cannot be read. */
  function GetAll(disk: Disk): (r: Response)
    ensures disk.Readable? ==> r == Response(200, Some(JObj(disk.doc)))
    ensures disk.Unreadable? ==> r.status == 500 && r.body == Some(Failure("Error reading data", disk.reason))
  {
    match disk
    case Readable(doc) => Response(200, Some(JObj(doc)))
    case Unreadable(reason) => Response(500, Some(Failure("Error reading data", reason)))
  }

  /** `GET /api/data/:section` with an own-key existence test. */
  function GetSection(disk: Disk, s: string): (r: Response)
    ensures disk.Unreadable? ==> r.status == 500 && r.body == Some(Failure("Error reading data", disk.reason))
    ensures disk.Readable? && s in disk.doc ==> r == Response(200, Some(disk.doc[s]))
    ensures disk.Readable? && s !in disk.doc ==> r == Reply(404, NotFoundText(s))
  {
    match disk
    case Unreadable(reason) => Response(500, Some(Failure("Error reading data", reason)))
    case Readable(doc) => if s in doc then Response(200, Some(doc[s])) else Reply(404, NotFoundText(s))
  }

  /** `PUT /api/data/:section` with an own-key existence test. `writeError` is the
      error text when writing the file fails; a failed write is taken to leave the
      file as it was. */
  function Put(disk: Disk, s: string, body: Json, writeError: Option<string>): (o: Outcome)
    ensures disk.Unreadable? ==> o == Outcome(disk, Response(500, Some(Failure("Error updating data", disk.reason))))
    ensures disk.Readable? && s !in disk.doc ==> o == Outcome(disk, Reply(404, NotFoundText(s)))
    ensures disk.Readable? && s in disk.doc && writeError.Some? ==>
      o == Outcome(disk, Response(500, Some(Failure("Error updating data", writeError.value))))
    ensures disk.Readable? && s in disk.doc && writeError.None? ==>
      && o.disk.Readable? && o.disk.doc.Keys == disk.doc.Keys && o.disk.doc[s] == body
      && (forall k :: k in disk.doc && k != s ==> o.disk.doc[k] == disk.doc[k])
      && o.response.status == 200
      && o.response.body == Some(JObj(map["message" := JStr(UpdatedText(s)), "data" := body]))
  {
    match disk
    case Unreadable(reason) => Outcome(disk, Response(500, Some(Failure("Error updating data", reason))))
    case Readable(doc) =>
      if s !in doc then Outcome(disk, Reply(404, NotFoundText(s)))
      else if writeError.Some? then Outcome(disk, Response(500, Some(Failure("Error updating data", writeError.value))))
      else Outcome(Readable(doc[s := body]), Response(200, Some(UpdatedReply(s, Some(body)))))
  }

  /** A section written successfully reads back as the body written. */
  lemma WriteThenRead(doc: Doc, s: string, body: Json)
    requires s in doc
    ensures GetSection(Put(Readable(doc), s, body, None).disk, s) == Response(200, Some(body))
  {
  }

  /** Writing the same body twice leaves the same document as writing it once. */
  lemma PutIdempotent(disk: Disk, s: string, body: Json)
    ensures var once := Put(disk, s, body, None).disk;
      Put(once, s, body, None).disk == once
  {
    if disk.Readable? && s in disk.doc {
      var once := Put(disk, s, body, None).disk;
      assert once.doc[s := body] == once.doc;
    }
  }

  /** Writing one section leaves every read of another section as it was. */
  lemma PutLeavesOtherSections(disk: Disk, s: string, t: string, body: Json, writeError: Option<string>)
    requires disk.Readable? && s != t
    ensures GetSection(Put(disk, s, body, writeError).disk, t) == GetSection(disk, t)
  {
  }

  /** No write, successful or not, adds or removes a section. */
  lemma PutKeepsSections(disk: Disk, s: string, body: Json, writeError: Option<string>)
    requires disk.Readable?
    ensures Put(disk, s, body, writeError).disk.Readable?
    ensures Put(disk, s, body, writeError).disk.doc.Keys == disk.doc.Keys
  {
  }

  /** `data[section] === undefined` is false: an own key, or a name every object inherits. */
  predicate Defined(doc: Doc, s: string)
  {
    s in doc || s in Inherited || s == ProtoName
  }

  /** `data.__proto__` after `data.__proto__ = body`, as `res.json` renders it: the
      body when it is an object or array (it became the prototype), `{}` when it is
      a primitive (the assignment is ignored), and absent when it is `null` (the
      prototype is gone, and the accessor with it). */
  function ProtoAfterWrite(body: Json): (v: Option<Json>)
    ensures (body.JObj? || body.JArr?) <==> v == Some(body)
    ensures body.JNull? <==> v.None?
  {
    match body
    case JObj(_) => Some(body)
    case JArr(_) => Some(body)
    case JNull => None
    case _ => Some(JObj(map[]))
  }

  /** `{ message, data }`, where an absent `data` is dropped by `JSON.stringify`. */
  function UpdatedReply(s: string, data: Option<Json>): (j: Json)
    ensures j.JObj? && "message" in j.fields && j.fields["message"] == JStr(UpdatedText(s))
    ensures "data" in j.fields <==> data.Some?
    ensures data.Some? ==> j.fields["data"] == data.value
    ensures j.fields.Keys <= {"message", "data"}
  {
    match data
    case Some(v) => JObj(map["message" := JStr(UpdatedText(s)), "data" := v])
    case None => JObj(map["message" := JStr(UpdatedText(s))])
  }

  /** The read route as written. For an inherited method the route sends a function,
      which JSON cannot encode, so the answer is 200 with no JSON body; for
      `__proto__` it sends the empty prototype object. */
  function GetSectionAsWritten(disk: Disk, s: string): (r: Response)
    ensures disk.Unreadable? ==> r.status == 500
    ensures disk.Readable? && s in disk.doc ==> r == Response(200, Some(disk.doc[s]))
    ensures disk.Readable? && !Defined(disk.doc, s) ==> r == Reply(404, NotFoundText(s))
    ensures disk.Readable? && s !in disk.doc && s in Inherited ==> r == Response(200, None)
    ensures disk.Readable? && s !in disk.doc && s == ProtoName ==> r == Response(200, Some(JObj(map[])))
  {
    match disk
    case Unreadable(reason) => Response(500, Some(Failure("Error reading data", reason)))
    case Readable(doc) =>
      if !Defined(doc, s) then Reply(404, NotFoundText(s))
      else if s in doc then Response(200, Some(doc[s]))
      else if s == ProtoName then Response(200, Some(JObj(map[])))
      else Response(200, None)
  }

  /** The write route as written: an inherited method name passes the existence
      test, so the body is stored under it as a new own key. `__proto__` passes too,
      but the assignment only changes the prototype, which `JSON.stringify`
      ignores: the file is rewritten as it was and the route still answers 200. */
  function PutAsWritten(disk: Disk, s: string, body: Json, writeError: Option<string>): (o: Outcome)
    ensures disk.Unreadable? ==> o == Outcome(disk, Response(500, Some(Failure("Error updating data", disk.reason))))
    ensures disk.Readable? && !Defined(disk.doc, s) ==> o == Outcome(disk, Reply(404, NotFoundText(s)))
    ensures disk.Readable? && Defined(disk.doc, s) && writeError.Some? ==>
      o == Outcome(disk, Response(500, Some(Failure("Error updating data", writeError.value))))
    ensures disk.Readable? && Defined(disk.doc, s) && writeError.None? && (s in disk.doc || s != ProtoName) ==>
      o.disk == Readable(disk.doc[s := body]) && o.response == Response(200, Some(UpdatedReply(s, Some(body))))
    ensures disk.Readable? && s !in disk.doc && s == ProtoName && writeError.None? ==>
      o.disk == disk && o.response == Response(200, Some(UpdatedReply(s, ProtoAfterWrite(body))))
  {
    match disk
    case Unreadable(reason) => Outcome(disk, Response(500, Some(Failure("Error updating data", reason))))
    case Readable(doc) =>
      if !Defined(doc, s) then Outcome(disk, Reply(404, NotFoundText(s)))
      else if writeError.Some? then Outcome(disk, Response(500, Some(Failure("Error updating data", writeError.value))))
      else if s !in doc && s == ProtoName then Outcome(disk, Response(200, Some(UpdatedReply(s, ProtoAfterWrite(body)))))
      else Outcome(Readable(doc[s := body]), Response(200, Some(UpdatedReply(s, Some(body)))))
  }

  /** On every name that is an own key, or no key at all, the routes as written and
      the corrected routes agree; they differ only on inherited names. */
  lemma AsWrittenAgreesOnOwnKeys(disk: Disk, s: string, body: Json, writeError: Option<string>)
    requires disk.Unreadable? || s in disk.doc || !Defined(disk.doc, s)
    ensures GetSectionAsWritten(disk, s) == GetSection(disk, s)
    ensures PutAsWritten(disk, s, body, writeError) == Put(disk, s, body, writeError)
  {
  }

  /** `PUT /api/data/toString` on a document without such a section succeeds and
      adds a section, where the corrected route answers 404 and changes nothing. */
  lemma PutInheritedNameAddsSection(doc: Doc, body: Json)
    requires "toString" !in doc
    ensures PutAsWritten(Readable(doc), "toString", body, None).response.status == 200
    ensures PutAsWritten(Readable(doc), "toString", body, None).disk.doc.Keys == doc.Keys + {"toString"}
    ensures Put(Readable(doc), "toString", body, None) == Outcome(Readable(doc), Reply(404, NotFoundText("toString")))
  {
    assert "toString" in Inherited;
  }

  /** `GET /api/data/toString` answers 200 with no JSON body, where the corrected
      route answers 404. */
  lemma GetInheritedNameAnswersEmpty(doc: Doc)
    requires "toString" !in doc
    ensures GetSectionAsWritten(Readable(doc), "toString") == Response(200, None)
    ensures GetSection(Readable(doc), "toString") == Reply(404, NotFoundText("toString"))
  {
    assert "toString" in Inherited;
  }

  /** `PUT /api/data/__proto__` on a document without such a key answers 200 and
      reports success, yet the file keeps exactly its old sections; a later read of
      the name answers `{}`, not the body. The corrected route answers 404. */
  lemma PutProtoNameIsLost(doc: Doc, body: Json)
    requires ProtoName !in doc && body.JObj?
    ensures var o := PutAsWritten(Readable(doc), ProtoName, body, None);
      && o.response == Response(200, Some(UpdatedReply(ProtoName, Some(body))))
      && o.disk == Readable(doc)
      && GetSectionAsWritten(o.disk, ProtoName) == Response(200, Some(JObj(map[])))
    ensures Put(Readable(doc), ProtoName, body, None) == Outcome(Readable(doc), Reply(404, NotFoundText(ProtoName)))
  {
  }
}
