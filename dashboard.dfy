/** The dashboard's display helpers: file sizes, action labels and colours, the
    usage figures with their defaults, the daily-limit warning and the plan name. */
module Dashboard {
  import opened Common

  /** What `/api/usage` returned, when that request succeeded. */
  datatype UsageInfo = UsageInfo(authenticated: bool, plan: string, todayCount: int, dailyLimit: int,
                                 canProcess: bool, canUseTimestamp: bool)

  const DEFAULT_DAILY_LIMIT: int := 2

  /** File sizes in the history table: a dash for zero, then bytes, kibibytes or mebibytes. */
  function FormatFileSize(bytes: nat): (t: SizeText)
    ensures t.Dash? <==> bytes == 0
    ensures t.Octets? <==> 0 < bytes < 1024
    ensures t.Ko? <==> 1024 <= bytes < 1024 * 1024
    ensures t.Mo? <==> 1024 * 1024 <= bytes
  {
    if bytes == 0 then Dash
    else if bytes < 1024 then Octets(bytes)
    else if bytes < 1024 * 1024 then Ko(bytes as real / 1024.0)
    else Mo(bytes as real / (1024 * 1024) as real)
  }

  /** Read back in its unit, the number shown is the size, and a Ko figure lies in [1, 1024). */
  lemma FormatFileSizeExact(bytes: nat)
    ensures SizeTextBytes(FormatFileSize(bytes)) == bytes as real
    ensures FormatFileSize(bytes).Ko? ==> 1.0 <= FormatFileSize(bytes).kilo < 1024.0
    ensures FormatFileSize(bytes).Mo? ==> 1.0 <= FormatFileSize(bytes).mega
  {
  }

  const ACTION_LABELS: map<string, string> :=
    map["fill" := "Remplissage", "convert" := "Conversion", "sign" := "Signature", "compress" := "Compression"]

  const ACTION_COLORS: map<string, string> :=
    map["fill" := "bg-blue-100 text-blue-700", "convert" := "bg-green-100 text-green-700",
        "sign" := "bg-orange-100 text-orange-700", "compress" := "bg-purple-100 text-purple-700"]

  const DEFAULT_ACTION_COLOR: string := "bg-gray-100 text-gray-700"

  /** The label of a known action; any other action is shown as it is. */
  function ActionLabel(action: string): (shown: string)
    ensures shown == action <==> action !in ACTION_LABELS
  {
    if action in ACTION_LABELS then ACTION_LABELS[action] else action
  }

  /** The badge colour of a known action; any other action gets grey. */
  function ActionColor(action: string): (color: string)
    ensures color == DEFAULT_ACTION_COLOR <==> action !in ACTION_COLORS
  {
    if action in ACTION_COLORS then ACTION_COLORS[action] else DEFAULT_ACTION_COLOR
  }

  /** The four known actions get four different labels and colours. */
  lemma ActionLookups(a: string, b: string)
    ensures a in ACTION_LABELS && b in ACTION_LABELS && a != b ==>
      ActionLabel(a) != ActionLabel(b) && ActionColor(a) != ActionColor(b)
  {
  }

  /** `(user.plan || "free") === "free"`: a missing or empty plan counts as free. */
  predicate IsFree(plan: Option<string>): (free: bool)
    ensures plan.None? ==> free
    ensures free ==> PlanBadge(plan) == "Gratuit"
  {
    plan.None? || plan.value == "" || plan.value == "free"
  }

  /** `usage?.dailyLimit ?? 2`. */
  function DailyLimit(usage: Option<UsageInfo>): int
  {
    if usage.Some? then usage.value.dailyLimit else DEFAULT_DAILY_LIMIT
  }

  /** `usage?.todayCount ?? 0`. */
  function TodayCount(usage: Option<UsageInfo>): int
  {
    if usage.Some? then usage.value.todayCount else 0
  }

  /** "Limite atteinte" is shown to a free user whose count has reached the limit. */
  predicate LimitReached(plan: Option<string>, usage: Option<UsageInfo>): (reached: bool)
    ensures reached ==> IsFree(plan) && usage.Some?
  {
    IsFree(plan) && TodayCount(usage) >= DailyLimit(usage)
  }

  /** Without usage data the figures are 0 of 2 and the warning never shows;
      a paying user never sees it. */
  lemma LimitReachedCases(plan: Option<string>, usage: Option<UsageInfo>)
    ensures usage.None? ==> DailyLimit(usage) == 2 && TodayCount(usage) == 0
    ensures usage.None? ==> !LimitReached(plan, usage)
    ensures !IsFree(plan) ==> !LimitReached(plan, usage)
    ensures IsFree(plan) && usage.Some? ==>
      (LimitReached(plan, usage) <==> usage.value.todayCount >= usage.value.dailyLimit)
  {
  }

  /** The word in the badge next to the user's e-mail. */
  function PlanBadge(plan: Option<string>): (word: string)
    ensures word == "Pro" <==> plan == Some("pro")
    ensures word == "Business" <==> plan == Some("business")
    ensures word == "Gratuit" <==> plan != Some("pro") && plan != Some("business")
  {
    if plan == Some("pro") then "Pro"
    else if plan == Some("business") then "Business"
    else "Gratuit"
  }

  /** The "Plan actuel" card as written: only the exact string "free" reads
      "Gratuit", so a user without a plan, whom the page treats as free,
      reads "Business". */
  function PlanLabelAsWritten(plan: Option<string>): (shown: string)
    ensures shown == "Gratuit" <==> plan == Some("free")
    ensures shown == "Pro" <==> plan == Some("pro")
    ensures shown == "Business" <==> plan != Some("free") && plan != Some("pro")
  {
    if plan == Some("free") then "Gratuit"
    else if plan == Some("pro") then "Pro"
    else "Business"
  }

  /** A user with no plan is counted as free (limit shown, upgrade offered)
      while the card names the Business plan. */
  lemma PlanLabelAsWrittenMissingPlan()
    ensures IsFree(None) && PlanLabelAsWritten(None) == "Business"
    ensures PlanBadge(None) == "Gratuit"
  {
  }

  /** The card with the same default as the rest of the page: "Gratuit" for
      every plan the page treats as free. */
  function PlanLabel(plan: Option<string>): (name: string)
    ensures name == "Gratuit" <==> IsFree(plan)
    ensures name in {"Gratuit", "Pro", "Business"}
  {
    if IsFree(plan) then "Gratuit"
    else if plan == Some("pro") then "Pro"
    else "Business"
  }

  /** The corrected card differs from the original only on a missing or empty
      plan, and agrees with the badge on every plan the application issues. */
  lemma PlanLabelCorrection(plan: Option<string>)
    ensures plan.Some? && plan.value != "" ==> PlanLabel(plan) == PlanLabelAsWritten(plan)
    ensures plan.None? || plan.value in {"free", "pro", "business", ""} ==> PlanLabel(plan) == PlanBadge(plan)
  {
  }
}
