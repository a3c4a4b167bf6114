/** The server side's data: the user, document and signature tables that the
    API routes read and write, the session a request carries, the responses
    the routes return, and the queries they share. */
module Store {
  import opened Common

  datatype User = User(id: string, email: string, name: string, passwordHash: string, plan: string)

  /** One processed file recorded for the daily quota and the history; `createdAt`
      is a time in milliseconds. */
  datatype Document = Document(id: string, userId: string, filename: string, originalName: string,
                               docType: string, action: string, size: int, createdAt: int)

  datatype Signature = Signature(id: string, userId: string, name: string, data: string, createdAt: int)

  /** The claims of a valid session token: who is calling. */
  datatype Session = Session(userId: string, email: string, name: string)

  /** The usage record several routes and pages share. */
  datatype Usage = Usage(authenticated: bool, plan: string, todayCount: int, dailyLimit: int,
                         canProcess: bool, canUseTimestamp: bool)

  datatype PublicUser = PublicUser(id: string, email: string, name: string, plan: Option<string>)

  /** The JSON body of a response, one variant per shape the routes send. */
  datatype Body =
    | ErrorBody(error: string, limitReached: bool)
    | UsageBody(usage: Usage)
    | DocumentListBody(documents: seq<Document>, totalDocuments: int, todayCount: int, dailyLimit: int,
                       plan: string, canProcess: bool)
    | DocumentBody(document: Document)
    | SignatureListBody(signatures: seq<Signature>)
    | SignatureBody(signature: Signature)
    | MessageBody(message: string)
    | UserBody(user: PublicUser, message: string)

  /** The claims signed into a session token; the login route adds the plan. */
  datatype TokenClaims = TokenClaims(userId: string, email: string, name: string, plan: Option<string>)

  /** The session cookie the auth routes set. */
  datatype Cookie = Cookie(name: string, value: string, httpOnly: bool, sameSite: string, maxAge: int, path: string)

  datatype Response = Response(status: int, body: Body, cookie: Option<Cookie>)

  const FREE_PLAN: string := "free"
  const FREE_DAILY_LIMIT: int := 2
  const UNLIMITED: int := -1
  const UNAUTHENTICATED: string := "Non authentifié"
  const SESSION_MAX_AGE: int := 60 * 60 * 24 * 7

  function Json(status: int, body: Body): Response
  {
    Response(status, body, None)
  }

  function Error(status: int, message: string): Response
  {
    Json(status, ErrorBody(message, false))
  }

  /** The `token` cookie the auth routes set: HTTP-only, same-site lax, for the
      whole site, for seven days. */
  function SessionCookie(token: string): (c: Cookie)
    ensures c.maxAge == 7 * 24 * 3600 && c.httpOnly && c.path == "/" && c.value == token
  {
    Cookie("token", token, true, "lax", SESSION_MAX_AGE, "/")
  }

  // ---------------------------------------------------------------- plans

  /** The unique field a `findUnique` looks a user up by. */
  datatype UserKey = ById(id: string) | ByEmail(email: string)

  predicate HasKey(u: User, key: UserKey)
  {
    match key
    case ById(id) => u.id == id
    case ByEmail(email) => u.email == email
  }

  /** `prisma.user.findUnique({ where })`: the first user with that key, or none. */
  function FindUnique(users: seq<User>, key: UserKey): (r: Option<User>)
    ensures r.Some? ==> r.value in users && HasKey(r.value, key)
    ensures r.None? ==> forall i :: 0 <= i < |users| ==> !HasKey(users[i], key)
  {
    if users == [] then None
    else if HasKey(users[0], key) then Some(users[0])
    else FindUnique(users[1..], key)
  }

  /** A user appended with a key no earlier user has is the one found by it. */
  lemma {:induction false} FindUniqueAppend(users: seq<User>, u: User, key: UserKey)
    requires HasKey(u, key) && forall i :: 0 <= i < |users| ==> !HasKey(users[i], key)
    ensures FindUnique(users + [u], key) == Some(u)
  {
    if users != [] {
      assert (users + [u])[1..] == users[1..] + [u];
      FindUniqueAppend(users[1..], u, key);
    } else {
      assert users + [u] == [u];
    }
  }

  /** `dbUser?.plan || "free"`: an unknown user or an empty plan is on the free plan. */
  function PlanOf(users: seq<User>, userId: string): (plan: string)
    ensures plan != ""
    ensures (forall i :: 0 <= i < |users| ==> users[i].id != userId) ==> plan == FREE_PLAN
  {
    match FindUnique(users, ById(userId))
    case None => FREE_PLAN
    case Some(u) => if u.plan == "" then FREE_PLAN else u.plan
  }

  /** -1 stands for "no limit". */
  function DailyLimit(plan: string): int
  {
    if plan == FREE_PLAN then FREE_DAILY_LIMIT else UNLIMITED
  }

  predicate CanProcess(plan: string, todayCount: int)
  {
    plan != FREE_PLAN || todayCount < FREE_DAILY_LIMIT
  }

  /** A paid plan always may process and has no limit; a free plan may process
      exactly while it is below its daily limit of 2. */
  lemma QuotaRule(plan: string, todayCount: int)
    ensures plan != FREE_PLAN ==> CanProcess(plan, todayCount) && DailyLimit(plan) == UNLIMITED
    ensures plan == FREE_PLAN ==> (CanProcess(plan, todayCount) <==> todayCount < DailyLimit(plan))
  {
  }

  // ---------------------------------------------------------------- queries

  function DocumentsOf(documents: seq<Document>, userId: string): (r: seq<Document>)
    ensures forall i :: 0 <= i < |r| ==> r[i].userId == userId
    ensures forall d :: d in r <==> d in documents && d.userId == userId
    ensures |r| <= |documents|
  {
    if documents == [] then []
    else
      var rest := DocumentsOf(documents[..|documents| - 1], userId);
      var last := documents[|documents| - 1];
      assert documents == documents[..|documents| - 1] + [last];
      if last.userId == userId then rest + [last] else rest
  }

  /** The caller's documents created at or after `todayStart` (local midnight). */
  function DocumentsSince(documents: seq<Document>, userId: string, todayStart: int): (r: seq<Document>)
    ensures forall d :: d in r <==> d in documents && d.userId == userId && d.createdAt >= todayStart
    ensures |r| <= |DocumentsOf(documents, userId)|
  {
    if documents == [] then []
    else
      var init := documents[..|documents| - 1];
      var rest := DocumentsSince(init, userId, todayStart);
      var last := documents[|documents| - 1];
      assert documents == init + [last];
      assert DocumentsOf(documents, userId) == if last.userId == userId then DocumentsOf(init, userId) + [last] else DocumentsOf(init, userId);
      if last.userId == userId && last.createdAt >= todayStart then rest + [last] else rest
  }

  function TodayCount(documents: seq<Document>, userId: string, todayStart: int): nat
  {
    |DocumentsSince(documents, userId, todayStart)|
  }

  /** A new document of another user, or one from before midnight, does not
      change the caller's count; one of the caller's from today adds exactly one. */
  lemma {:induction false} TodayCountAppend(documents: seq<Document>, d: Document, userId: string, todayStart: int)
    ensures TodayCount(documents + [d], userId, todayStart)
      == TodayCount(documents, userId, todayStart) + (if d.userId == userId && d.createdAt >= todayStart then 1 else 0)
  {
    assert (documents + [d])[..|documents + [d]| - 1] == documents;
  }

  function SignaturesOf(signatures: seq<Signature>, userId: string): (r: seq<Signature>)
    ensures forall i :: 0 <= i < |r| ==> r[i].userId == userId
    ensures forall s :: s in r <==> s in signatures && s.userId == userId
  {
    if signatures == [] then []
    else
      var rest := SignaturesOf(signatures[..|signatures| - 1], userId);
      var last := signatures[|signatures| - 1];
      assert signatures == signatures[..|signatures| - 1] + [last];
      if last.userId == userId then rest + [last] else rest
  }

  // ---------------------------------------------------------------- newest first

  predicate NewestFirst<T>(s: seq<T>, time: T -> int)
  {
    forall i, j :: 0 <= i < j < |s| ==> time(s[i]) >= time(s[j])
  }

  /** Puts `x` into a list already ordered newest first, after every entry at
      least as new. */
  function InsertByTime<T>(x: T, s: seq<T>, time: T -> int): (r: seq<T>)
    requires NewestFirst(s, time)
    ensures NewestFirst(r, time)
    ensures multiset(r) == multiset(s) + multiset{x}
    ensures forall e :: e in r ==> e == x || e in s
  {
    if s == [] then [x]
    else if time(s[0]) >= time(x) then
      var tail := InsertByTime(x, s[1..], time);
      assert s == [s[0]] + s[1..];
      InsertBehindHead(x, s, tail, time);
      [s[0]] + tail
    else
      [x] + s
  }

  /** The step of the insertion: the head of `s` is at least as new as
      everything that follows it once `x` has been inserted behind it. */
  lemma InsertBehindHead<T>(x: T, s: seq<T>, tail: seq<T>, time: T -> int)
    requires s != [] && NewestFirst(s, time) && time(s[0]) >= time(x)
    requires NewestFirst(tail, time)
    requires forall e :: e in tail ==> e == x || e in s[1..]
    ensures NewestFirst([s[0]] + tail, time)
  {
    var r := [s[0]] + tail;
    forall k | 0 <= k < |tail| ensures time(s[0]) >= time(tail[k]) {
      assert tail[k] in tail;
      if tail[k] != x {
        var m :| 0 <= m < |s[1..]| && s[1..][m] == tail[k];
        assert s[m + 1] == tail[k];
      }
    }
    forall i, j | 0 <= i < j < |r| ensures time(r[i]) >= time(r[j]) {
      assert r[j] == tail[j - 1];
      if i > 0 {
        assert r[i] == tail[i - 1];
      }
    }
  }

  /** `orderBy: { createdAt: "desc" }`: the same entries, newest first. */
  function SortNewestFirst<T>(s: seq<T>, time: T -> int): (r: seq<T>)
    ensures NewestFirst(r, time)
    ensures multiset(r) == multiset(s)
  {
    if s == [] then []
    else
      assert s == [s[0]] + s[1..];
      InsertByTime(s[0], SortNewestFirst(s[1..], time), time)
  }

  function DocumentTime(d: Document): int { d.createdAt }

  function SignatureTime(s: Signature): int { s.createdAt }

  /** `skip: offset, take: limit`, for a non-negative offset and limit. */
  function Window<T>(s: seq<T>, offset: nat, limit: nat): (r: seq<T>)
    ensures |r| <= limit
    ensures |r| == if offset >= |s| then 0 else if offset + limit <= |s| then limit else |s| - offset
    ensures forall i :: 0 <= i < |r| ==> offset + i < |s| && r[i] == s[offset + i]
  {
    if offset >= |s| then []
    else if offset + limit >= |s| then s[offset..]
    else s[offset..offset + limit]
  }

  /** A window of a list that is ordered newest first is ordered newest first. */
  lemma WindowNewestFirst<T>(s: seq<T>, offset: nat, limit: nat, time: T -> int)
    requires NewestFirst(s, time)
    ensures NewestFirst(Window(s, offset, limit), time)
  {
    var w := Window(s, offset, limit);
    forall i, j | 0 <= i < j < |w| ensures time(w[i]) >= time(w[j]) {
      assert w[i] == s[offset + i] && w[j] == s[offset + j];
    }
  }

  // ---------------------------------------------------------------- the tables

  predicate UniqueUserIds(users: seq<User>)
  {
    forall i, j :: 0 <= i < j < |users| ==> users[i].id != users[j].id
  }

  predicate UniqueEmails(users: seq<User>)
  {
    forall i, j :: 0 <= i < j < |users| ==> users[i].email != users[j].email
  }

  predicate UniqueSignatureIds(signatures: seq<Signature>)
  {
    forall i, j :: 0 <= i < j < |signatures| ==> signatures[i].id != signatures[j].id
  }

  predicate UniqueDocumentIds(documents: seq<Document>)
  {
    forall i, j :: 0 <= i < j < |documents| ==> documents[i].id != documents[j].id
  }

  function UserIds(users: seq<User>): set<string>
  {
    set u | u in users :: u.id
  }

  function DocumentIds(documents: seq<Document>): set<string>
  {
    set d | d in documents :: d.id
  }

  function SignatureIds(signatures: seq<Signature>): set<string>
  {
    set s | s in signatures :: s.id
  }

  /** The database behind the routes. New rows get identifiers the database
      generates; the routes receive them as parameters, new by the database's
      own guarantee. */
  class Database {
    var users: seq<User>
    var documents: seq<Document>
    var signatures: seq<Signature>

    /** Primary keys are unique, and so are e-mail addresses. */
    ghost predicate Valid()
      reads this
    {
      && UniqueUserIds(users)
      && UniqueEmails(users)
      && UniqueDocumentIds(documents)
      && UniqueSignatureIds(signatures)
    }

    constructor ()
      ensures Valid() && users == [] && documents == [] && signatures == []
    {
      users := [];
      documents := [];
      signatures := [];
    }
  }
}
