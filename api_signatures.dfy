/** `/api/signatures`: each user's saved signatures, listed newest first,
    created one at a time and deleted only by their owner. */
module SignaturesRoute {
  import opened Common
  import opened Store

  const REQUIRED: string := "Le nom et les données de signature sont requis"
  const ID_REQUIRED: string := "ID de signature requis"
  const NOT_FOUND: string := "Signature non trouvée"
  const DELETED: string := "Signature supprimée"

  /** The JSON body of a POST; absent or empty fields are `None` or `""`. */
  datatype SignatureRequest = SignatureRequest(name: Option<string>, data: Option<string>)

  predicate Given(field: Option<string>)
  {
    field.Some? && field.value != ""
  }

  /** GET: 401 without a session; otherwise all of the caller's signatures, newest first. */
  function Get(session: Option<Session>, signatures: seq<Signature>): (r: Response)
    ensures session.None? ==> r == Error(401, UNAUTHENTICATED)
    ensures session.Some? ==>
      && r.status == 200 && r.body.SignatureListBody?
      && multiset(r.body.signatures) == multiset(SignaturesOf(signatures, session.value.userId))
      && NewestFirst(r.body.signatures, SignatureTime)
  {
    if session.None? then Error(401, UNAUTHENTICATED)
    else Json(200, SignatureListBody(SortNewestFirst(SignaturesOf(signatures, session.value.userId), SignatureTime)))
  }

  /** A listed signature is one of the caller's, and each of theirs is listed. */
  lemma GetListsExactlyOwn(session: Session, signatures: seq<Signature>, s: Signature)
    ensures s in Get(Some(session), signatures).body.signatures <==> s in signatures && s.userId == session.userId
  {
    var listed := Get(Some(session), signatures).body.signatures;
    assert s in listed <==> s in multiset(listed);
  }

  /** POST, decided: 401, then 400 unless both name and data are given, else
      201 with the new row owned by the caller. */
  function DecideCreate(session: Option<Session>, body: SignatureRequest, newId: string, now: int)
    : (r: (Response, Option<Signature>))
    ensures session.None? ==> r == (Error(401, UNAUTHENTICATED), None)
    ensures session.Some? && !(Given(body.name) && Given(body.data)) ==> r == (Error(400, REQUIRED), None)
    ensures r.1.Some? <==> session.Some? && Given(body.name) && Given(body.data)
    ensures r.1.Some? ==>
      && r.1.value == Signature(newId, session.value.userId, body.name.value, body.data.value, now)
      && r.0 == Json(201, SignatureBody(r.1.value))
  {
    if session.None? then (Error(401, UNAUTHENTICATED), None)
    else if !(Given(body.name) && Given(body.data)) then (Error(400, REQUIRED), None)
    else
      var s := Signature(newId, session.value.userId, body.name.value, body.data.value, now);
      (Json(201, SignatureBody(s)), Some(s))
  }

  /** `prisma.signature.delete({ where: { id } })`: every row with that id goes. */
  function RemoveById(signatures: seq<Signature>, id: string): (r: seq<Signature>)
    ensures |r| <= |signatures|
    ensures forall i :: 0 <= i < |r| ==> r[i].id != id && r[i] in signatures
    ensures forall s :: s in signatures && s.id != id ==> s in r
  {
    if signatures == [] then []
    else (if signatures[0].id == id then [] else [signatures[0]]) + RemoveById(signatures[1..], id)
  }

  lemma {:induction false} RemoveByIdDistributes(a: seq<Signature>, b: seq<Signature>, id: string)
    ensures RemoveById(a + b, id) == RemoveById(a, id) + RemoveById(b, id)
  {
    if a == [] {
      assert a + b == b;
    } else {
      assert (a + b)[1..] == a[1..] + b;
      RemoveByIdDistributes(a[1..], b, id);
    }
  }

  lemma {:induction false} RemoveByIdAbsent(signatures: seq<Signature>, id: string)
    requires forall i :: 0 <= i < |signatures| ==> signatures[i].id != id
    ensures RemoveById(signatures, id) == signatures
  {
    if signatures != [] {
      RemoveByIdAbsent(signatures[1..], id);
    }
  }

  /** With unique ids, deleting the id of row `k` removes that row and keeps
      every other row, in order. */
  lemma {:induction false} RemoveByIdExactlyOne(signatures: seq<Signature>, k: nat)
    requires UniqueSignatureIds(signatures) && k < |signatures|
    ensures RemoveById(signatures, signatures[k].id) == signatures[..k] + signatures[k + 1..]
  {
    var id := signatures[k].id;
    var before, after := signatures[..k], signatures[k + 1..];
    assert signatures == before + ([signatures[k]] + after);
    RemoveByIdDistributes(before, [signatures[k]] + after, id);
    RemoveByIdHead(signatures[k], after);
    OthersKeepTheirRows(signatures, k);
  }

  lemma RemoveByIdHead(s: Signature, rest: seq<Signature>)
    ensures RemoveById([s] + rest, s.id) == RemoveById(rest, s.id)
  {
    assert ([s] + rest)[1..] == rest;
  }

  /** The rows before and after row `k` carry none of its id. */
  lemma OthersKeepTheirRows(signatures: seq<Signature>, k: nat)
    requires UniqueSignatureIds(signatures) && k < |signatures|
    ensures RemoveById(signatures[..k], signatures[k].id) == signatures[..k]
    ensures RemoveById(signatures[k + 1..], signatures[k].id) == signatures[k + 1..]
  {
    var id, before, after := signatures[k].id, signatures[..k], signatures[k + 1..];
    forall i | 0 <= i < |before| ensures before[i].id != id {
      assert before[i] == signatures[i];
    }
    RemoveByIdAbsent(before, id);
    forall i | 0 <= i < |after| ensures after[i].id != id {
      assert after[i] == signatures[k + 1 + i];
    }
    RemoveByIdAbsent(after, id);
  }

  /** `findFirst({ where: { id, userId } })`. */
  predicate OwnedBy(signatures: seq<Signature>, id: string, userId: string)
  {
    exists i :: 0 <= i < |signatures| && signatures[i].id == id && signatures[i].userId == userId
  }

  /** DELETE, decided: 401, then 400 without an id, then 404 unless the caller
      owns a signature with that id, else 200 and the row is to be deleted. */
  function DecideDelete(session: Option<Session>, signatures: seq<Signature>, id: Option<string>)
    : (r: (Response, bool))
    ensures session.None? ==> r == (Error(401, UNAUTHENTICATED), false)
    ensures session.Some? && !Given(id) ==> r == (Error(400, ID_REQUIRED), false)
    ensures session.Some? && Given(id) && !OwnedBy(signatures, id.value, session.value.userId)
      ==> r == (Error(404, NOT_FOUND), false)
    ensures r.1 <==> session.Some? && Given(id) && OwnedBy(signatures, id.value, session.value.userId)
    ensures r.1 ==> r.0 == Json(200, MessageBody(DELETED))
  {
    if session.None? then (Error(401, UNAUTHENTICATED), false)
    else if !Given(id) then (Error(400, ID_REQUIRED), false)
    else if !OwnedBy(signatures, id.value, session.value.userId) then (Error(404, NOT_FOUND), false)
    else (Json(200, MessageBody(DELETED)), true)
  }

  /** A caller can delete no signature of another user: any row not the
      caller's survives every DELETE. */
  lemma DeleteNeverTouchesOthers(session: Option<Session>, signatures: seq<Signature>, id: Option<string>, s: Signature)
    requires UniqueSignatureIds(signatures)
    requires s in signatures && (session.None? || s.userId != session.value.userId)
    ensures var d := DecideDelete(session, signatures, id);
      s in (if d.1 then RemoveById(signatures, id.value) else signatures)
  {
    var d := DecideDelete(session, signatures, id);
    if d.1 {
      var i :| 0 <= i < |signatures| && signatures[i].id == id.value && signatures[i].userId == session.value.userId;
      var j :| 0 <= j < |signatures| && signatures[j] == s;
      assert i != j;
    }
  }

  method Post(db: Database, session: Option<Session>, body: SignatureRequest, newId: string, now: int)
    returns (r: Response)
    requires db.Valid() && newId !in SignatureIds(db.signatures)
    modifies db`signatures
    ensures db.Valid()
    ensures var d := DecideCreate(session, body, newId, now);
      && r == d.0
      && db.signatures == old(db.signatures) + (if d.1.Some? then [d.1.value] else [])
  {
    var d := DecideCreate(session, body, newId, now);
    if d.1.Some? {
      db.signatures := db.signatures + [d.1.value];
    }
    r := d.0;
  }

  /** `after` is `before` without its row `k`, a row with id `id` owned by `userId`. */
  predicate DeletedOwnRow(before: seq<Signature>, after: seq<Signature>, id: string, userId: string)
  {
    exists k :: 0 <= k < |before| && before[k].id == id && before[k].userId == userId
      && after == before[..k] + before[k + 1..]
  }

  /** Dropping one row keeps the ids unique. */
  lemma UniqueAfterDrop(signatures: seq<Signature>, k: nat)
    requires UniqueSignatureIds(signatures) && k < |signatures|
    ensures UniqueSignatureIds(signatures[..k] + signatures[k + 1..])
  {
    var r := signatures[..k] + signatures[k + 1..];
    forall i, j | 0 <= i < j < |r| ensures r[i].id != r[j].id {
      var i', j' := if i < k then i else i + 1, if j < k then j else j + 1;
      assert r[i] == signatures[i'] && r[j] == signatures[j'];
    }
  }

  /** DELETE on the database: on success exactly the owned row is removed and
      every other row stays, in order; otherwise the table is unchanged. */
  method Delete(db: Database, session: Option<Session>, id: Option<string>) returns (r: Response)
    requires db.Valid()
    modifies db`signatures
    ensures db.Valid()
    ensures var d := DecideDelete(session, old(db.signatures), id);
      && r == d.0
      && (!d.1 ==> db.signatures == old(db.signatures))
      && (d.1 ==> DeletedOwnRow(old(db.signatures), db.signatures, id.value, session.value.userId))
  {
    var d := DecideDelete(session, db.signatures, id);
    if d.1 {
      var before := db.signatures;
      var k :| 0 <= k < |before| && before[k].id == id.value && before[k].userId == session.value.userId;
      RemoveByIdExactlyOne(before, k);
      UniqueAfterDrop(before, k);
      db.signatures := RemoveById(before, id.value);
      assert DeletedOwnRow(before, db.signatures, id.value, session.value.userId);
    }
    r := d.0;
  }
}
