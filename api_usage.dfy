/** `GET /api/usage`: the caller's plan, today's count and what they may do. */
module UsageRoute {
  import opened Common
  import opened Store

  /** What an anonymous caller, or any caller when the lookup fails, is told:
      free, nothing counted, may process, no timestamp. */
  const ANONYMOUS: Usage := Usage(false, FREE_PLAN, 0, FREE_DAILY_LIMIT, true, false)

  /** The record for a signed-in caller on `plan` with `todayCount` documents today. */
  function Entitlement(plan: string, todayCount: nat): (u: Usage)
    ensures u.authenticated && u.plan == plan && u.todayCount == todayCount
    ensures u.dailyLimit == (if plan == FREE_PLAN then 2 else -1)
    ensures u.canProcess <==> plan != FREE_PLAN || todayCount < 2
    ensures u.canUseTimestamp <==> plan != FREE_PLAN
  {
    Usage(true, plan, todayCount, DailyLimit(plan), CanProcess(plan, todayCount), plan != FREE_PLAN)
  }

  /** The route. `failed` stands for any exception raised while querying the
      database; it is answered like an anonymous call, still with status 200. */
  function Get(session: Option<Session>, users: seq<User>, documents: seq<Document>, todayStart: int,
               failed: bool): (r: Response)
    ensures r.status == 200 && r.body.UsageBody? && r.cookie.None?
    ensures session.None? || failed ==> r.body.usage == ANONYMOUS
    ensures session.Some? && !failed ==>
      r.body.usage == Entitlement(PlanOf(users, session.value.userId),
                                  TodayCount(documents, session.value.userId, todayStart))
  {
    if session.None? || failed then Json(200, UsageBody(ANONYMOUS))
    else
      var plan := PlanOf(users, session.value.userId);
      Json(200, UsageBody(Entitlement(plan, TodayCount(documents, session.value.userId, todayStart))))
  }

  /** Only a signed-in caller on a paid plan may add a timestamp, and a free
      caller's answer flips to "cannot process" at the second document of the
      day, counting only their own documents since midnight. */
  lemma {:induction false} UsageGates(session: Session, users: seq<User>, documents: seq<Document>, todayStart: int,
                                      d: Document)
    requires d.userId == session.userId && d.createdAt >= todayStart
    requires PlanOf(users, session.userId) == FREE_PLAN
    requires TodayCount(documents, session.userId, todayStart) == 1
    ensures Get(Some(session), users, documents, todayStart, false).body.usage.canProcess
    ensures !Get(Some(session), users, documents + [d], todayStart, false).body.usage.canProcess
    ensures !Get(Some(session), users, documents, todayStart, false).body.usage.canUseTimestamp
  {
    TodayCountAppend(documents, d, session.userId, todayStart);
  }
}
