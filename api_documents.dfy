/** `/api/documents`: the caller's processing history (GET) and the recording
    of a processed file, refused once a free account has used its two
    documents of the day (POST). */
module DocumentsRoute {
  import opened Common
  import opened Store
  import UsageRoute

  const DEFAULT_LIMIT: nat := 20
  const DEFAULT_OFFSET: nat := 0
  const MISSING_DATA: string := "Données manquantes"
  const LIMIT_MESSAGE: string :=
    "Limite quotidienne atteinte (2 documents/jour). Passez au plan Pro pour un accès illimité."

  /** The JSON body of a POST; a field JavaScript reads as falsy (absent or
      empty) is `None` or `""`. */
  datatype DocumentRequest = DocumentRequest(filename: Option<string>, originalName: Option<string>,
                                             docType: Option<string>, action: Option<string>, size: Option<int>)

  /** What a POST decides before touching the table: an answer alone, or an
      answer together with the row to insert. */
  datatype Outcome = Refuse(response: Response) | Insert(response: Response, document: Document)

  predicate Given(field: Option<string>)
  {
    field.Some? && field.value != ""
  }

  /** The caller's documents, newest first, as the history lists them before windowing. */
  function History(documents: seq<Document>, userId: string): seq<Document>
  {
    SortNewestFirst(DocumentsOf(documents, userId), DocumentTime)
  }

  /** GET: 401 without a session; otherwise the window `offset`, `limit` (by
      default 0 and 20) of the caller's documents newest first, their total,
      today's count and what the plan allows. */
  function Get(session: Option<Session>, users: seq<User>, documents: seq<Document>, todayStart: int,
               limit: Option<nat>, offset: Option<nat>): (r: Response)
    ensures session.None? <==> r.status == 401
    ensures session.None? ==> r == Error(401, UNAUTHENTICATED)
    ensures session.Some? ==>
      var uid := session.value.userId;
      var b := r.body;
      && r.status == 200 && b.DocumentListBody?
      && (forall d :: d in b.documents ==> d in documents && d.userId == uid)
      && NewestFirst(b.documents, DocumentTime)
      && |b.documents| <= (if limit.Some? then limit.value else DEFAULT_LIMIT)
      && b.totalDocuments == |DocumentsOf(documents, uid)|
      && b.todayCount == TodayCount(documents, uid, todayStart)
      && b.documents == Window(History(documents, uid), if offset.Some? then offset.value else DEFAULT_OFFSET,
                               if limit.Some? then limit.value else DEFAULT_LIMIT)
      && b.plan == PlanOf(users, uid) && b.dailyLimit == DailyLimit(b.plan)
      && b.canProcess == CanProcess(b.plan, b.todayCount)
  {
    if session.None? then Error(401, UNAUTHENTICATED)
    else
      var uid := session.value.userId;
      var take := if limit.Some? then limit.value else DEFAULT_LIMIT;
      var skip := if offset.Some? then offset.value else DEFAULT_OFFSET;
      var window := Window(History(documents, uid), skip, take);
      HistoryWindow(documents, uid, skip, take);
      var plan := PlanOf(users, uid);
      var today := TodayCount(documents, uid, todayStart);
      Json(200, DocumentListBody(window, |DocumentsOf(documents, uid)|, today, DailyLimit(plan), plan,
                                 CanProcess(plan, today)))
  }

  /** Any window of the history holds only the caller's documents, newest first. */
  lemma HistoryWindow(documents: seq<Document>, uid: string, skip: nat, take: nat)
    ensures var w := Window(History(documents, uid), skip, take);
      && (forall d :: d in w ==> d in documents && d.userId == uid)
      && NewestFirst(w, DocumentTime)
      && |w| <= take
  {
    var history := History(documents, uid);
    var window := Window(history, skip, take);
    forall d | d in window ensures d in documents && d.userId == uid {
      var i :| 0 <= i < |window| && window[i] == d;
      assert history[skip + i] == d;
      assert d in multiset(history);
    }
    WindowNewestFirst(history, skip, take, DocumentTime);
  }

  /** The quota figures the history reports are those `/api/usage` reports. */
  lemma GetAgreesWithUsage(session: Session, users: seq<User>, documents: seq<Document>, todayStart: int,
                           limit: Option<nat>, offset: Option<nat>)
    ensures var b := Get(Some(session), users, documents, todayStart, limit, offset).body;
      var u := UsageRoute.Get(Some(session), users, documents, todayStart, false).body.usage;
      b.todayCount == u.todayCount && b.dailyLimit == u.dailyLimit && b.plan == u.plan
      && b.canProcess == u.canProcess
  {
  }

  /** The row a successful POST inserts: owned by the caller, size 0 when none is given. */
  function NewDocument(session: Session, body: DocumentRequest, newId: string, now: int): Document
    requires Given(body.filename) && Given(body.originalName) && Given(body.docType) && Given(body.action)
  {
    Document(newId, session.userId, body.filename.value, body.originalName.value, body.docType.value,
             body.action.value, if body.size.Some? && body.size.value != 0 then body.size.value else 0, now)
  }

  /** POST, decided: 401 without a session, 400 when a field is missing, 429
      for a free caller with two documents today, otherwise 201 with the new row. */
  function Decide(session: Option<Session>, users: seq<User>, documents: seq<Document>, body: DocumentRequest,
                  newId: string, now: int, todayStart: int): (o: Outcome)
    ensures session.None? ==> o == Refuse(Error(401, UNAUTHENTICATED))
    ensures session.Some? && !(Given(body.filename) && Given(body.originalName) && Given(body.docType) && Given(body.action))
      ==> o == Refuse(Error(400, MISSING_DATA))
    ensures session.Some? && Given(body.filename) && Given(body.originalName) && Given(body.docType) && Given(body.action)
      && !CanProcess(PlanOf(users, session.value.userId), TodayCount(documents, session.value.userId, todayStart))
      ==> o == Refuse(Json(429, ErrorBody(LIMIT_MESSAGE, true)))
    ensures o.Insert? ==> o.response.status == 201 && o.response.body == DocumentBody(o.document)
    ensures o.Insert? ==> o.document.userId == session.value.userId && o.document.id == newId
    ensures o.Insert? <==>
      && session.Some?
      && Given(body.filename) && Given(body.originalName) && Given(body.docType) && Given(body.action)
      && CanProcess(PlanOf(users, session.value.userId), TodayCount(documents, session.value.userId, todayStart))
  {
    if session.None? then Refuse(Error(401, UNAUTHENTICATED))
    else if !(Given(body.filename) && Given(body.originalName) && Given(body.docType) && Given(body.action)) then
      Refuse(Error(400, MISSING_DATA))
    else
      var uid := session.value.userId;
      if PlanOf(users, uid) == FREE_PLAN && TodayCount(documents, uid, todayStart) >= FREE_DAILY_LIMIT then
        Refuse(Json(429, ErrorBody(LIMIT_MESSAGE, true)))
      else
        var d := NewDocument(session.value, body, newId, now);
        Insert(Json(201, DocumentBody(d)), d)
  }

  /** A complete request from a signed-in caller is refused with 429 exactly
      when `/api/usage` tells that caller they cannot process. */
  lemma QuotaGateMatchesUsage(session: Session, users: seq<User>, documents: seq<Document>, body: DocumentRequest,
                              newId: string, now: int, todayStart: int)
    requires Given(body.filename) && Given(body.originalName) && Given(body.docType) && Given(body.action)
    ensures var o := Decide(Some(session), users, documents, body, newId, now, todayStart);
      (o.Refuse? && o.response.status == 429 && o.response.body.limitReached)
        <==> !UsageRoute.Get(Some(session), users, documents, todayStart, false).body.usage.canProcess
  {
  }

  /** A free account never gets past two documents a day through this route:
      if it had at most two, it still has at most two after any POST. */
  lemma {:induction false} FreeQuotaKept(session: Session, users: seq<User>, documents: seq<Document>,
                                         body: DocumentRequest, newId: string, now: int, todayStart: int)
    requires PlanOf(users, session.userId) == FREE_PLAN
    requires TodayCount(documents, session.userId, todayStart) <= FREE_DAILY_LIMIT
    ensures var o := Decide(Some(session), users, documents, body, newId, now, todayStart);
      o.Insert? ==> TodayCount(documents + [o.document], session.userId, todayStart) <= FREE_DAILY_LIMIT
  {
    var o := Decide(Some(session), users, documents, body, newId, now, todayStart);
    if o.Insert? {
      TodayCountAppend(documents, o.document, session.userId, todayStart);
    }
  }

  /** POST on the database: the decided answer, and the table grows by the
      decided row or not at all. */
  method Post(db: Database, session: Option<Session>, body: DocumentRequest, newId: string, now: int,
              todayStart: int) returns (r: Response)
    requires db.Valid() && newId !in DocumentIds(db.documents)
    modifies db`documents
    ensures db.Valid()
    ensures var o := Decide(session, db.users, old(db.documents), body, newId, now, todayStart);
      && r == o.response
      && db.documents == old(db.documents) + (if o.Insert? then [o.document] else [])
  {
    var o := Decide(session, db.users, db.documents, body, newId, now, todayStart);
    if o.Insert? {
      db.documents := db.documents + [o.document];
    }
    r := o.response;
  }
}
