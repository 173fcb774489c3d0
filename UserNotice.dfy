/** The USERNOTICE sub-views (subscription, gifted subscription, gift upgrade,
    raid, ritual, bits badge) and the subscription plan they carry. Every view
    is rebuilt from the same RawMessage as the notice it views. */
module UserNotice {
  import opened Wrappers
  import opened Numbers
  import opened TwitchMessages

  datatype SubPlan = Prime | Tier1 | Tier2 | Tier3

  /** The wire name of each plan. */
  function PlanName(p: SubPlan): string {
    match p
    case Prime => "Prime"
    case Tier1 => "1000"
    case Tier2 => "2000"
    case Tier3 => "3000"
  }

  /** SubPlan.parse: the four plan names; anything else is an IllegalStateException. */
  function ParseSubPlan(plan: string): (r: Result<SubPlan>)
    ensures r.Ok? <==> plan in {"Prime", "1000", "2000", "3000"}
    ensures r.Err? ==> r.error == IllegalState("Unknown subscription plan")
  {
    match plan
    case "Prime" => Ok(Prime)
    case "1000" => Ok(Tier1)
    case "2000" => Ok(Tier2)
    case "3000" => Ok(Tier3)
    case _ => Err(IllegalState("Unknown subscription plan"))
  }

  /** parse and the plan names are inverse to each other. */
  lemma SubPlanRoundTrip(p: SubPlan, plan: string)
    ensures ParseSubPlan(PlanName(p)) == Ok(p)
    ensures ParseSubPlan(plan).Ok? ==> PlanName(ParseSubPlan(plan).value) == plan
  {
  }

  /** The six views a UserNoticeMessage can be read as. */
  datatype View = Sub | SubGift | UpgradeGift | Raid | Ritual | BitsBadge

  /** asSubMessage, asSubGift, ...: a new UserNoticeMessage over the same RawMessage,
      so its construction asserts USERNOTICE again. */
  function AsView(m: TwitchMessage, v: View): (r: Result<TwitchMessage>)
    requires m.kind == UserNotice && WellTyped(m)
    ensures r == Ok(m)
  {
    Construct(UserNotice, m.rawMessage)
  }

  /** A required tag: CorruptedMessage with the view's reason when absent. */
  function RequiredTag(m: TwitchMessage, key: string, reason: string): (r: Result<string>)
    ensures r.Ok? <==> key in m.rawMessage.tags
    ensures r.Ok? ==> r.value == m.rawMessage.tags[key]
    ensures r.Err? ==> r.error == CorruptedMessage(reason)
  {
    OrCorrupted(Tag(m, key), reason)
  }

  /** `tags[key]?.toInt() ?: throw CorruptedMessageException(reason)`: an absent tag is
      corrupted, a present one that is not an Int throws NumberFormatException. */
  function RequiredIntTag(m: TwitchMessage, key: string, reason: string): (r: Result<int>)
    ensures key !in m.rawMessage.tags ==> r == Err(CorruptedMessage(reason))
    ensures key in m.rawMessage.tags ==> r == ToInt(m.rawMessage.tags[key])
  {
    match Tag(m, key)
    case None => Err(CorruptedMessage(reason))
    case Some(s) => ToInt(s)
  }

  /** `tags[key]?.toInt()`: null when absent, NumberFormatException when not an Int. */
  function OptionalIntTag(m: TwitchMessage, key: string): (r: Result<Option<int>>)
    ensures key !in m.rawMessage.tags ==> r == Ok(None)
    ensures key in m.rawMessage.tags ==>
              (r.Ok? <==> ToInt(m.rawMessage.tags[key]).Ok?) &&
              (r.Ok? ==> r.value == Some(ToInt(m.rawMessage.tags[key]).value))
  {
    match Tag(m, key)
    case None => Ok(None)
    case Some(s) =>
      match ToInt(s)
      case Ok(v) => Ok(Some(v))
      case Err(e) => Err(e)
  }

  /** The `subPlan` getter of SubMessage and SubGiftMessage: a missing tag is read as "". */
  function SubPlanOf(m: TwitchMessage): Result<SubPlan> {
    ParseSubPlan(Tag(m, "msg-param-sub-plan").GetOr(""))
  }

  /** subPlan succeeds exactly when the tag holds one of the four plan names; a notice
      without the tag always throws. */
  lemma SubPlanOfTag(m: TwitchMessage)
    ensures "msg-param-sub-plan" !in m.rawMessage.tags ==>
              SubPlanOf(m) == Err(IllegalState("Unknown subscription plan"))
    ensures SubPlanOf(m).Ok? <==>
              "msg-param-sub-plan" in m.rawMessage.tags &&
              m.rawMessage.tags["msg-param-sub-plan"] in {"Prime", "1000", "2000", "3000"}
    ensures SubPlanOf(m).Ok? ==> PlanName(SubPlanOf(m).value) == m.rawMessage.tags["msg-param-sub-plan"]
  {
    assert "" !in {"Prime", "1000", "2000", "3000"};
  }

  // === SubMessage ===

  function CumulativeMonths(m: TwitchMessage): Result<int> {
    RequiredIntTag(m, "msg-param-cumulative-months", "cumulative months not found or not a number")
  }

  predicate StreakShared(m: TwitchMessage) {
    Tag(m, "msg-param-should-share-streak") == Some("1")
  }

  function Streak(m: TwitchMessage): Result<Option<int>> {
    OptionalIntTag(m, "msg-param-streak-months")
  }

  function SubPlanName(m: TwitchMessage): Result<string> {
    RequiredTag(m, "msg-param-sub-plan-name", "sub plan name not found")
  }

  // === SubGiftMessage ===

  function GiftMonths(m: TwitchMessage): Result<int> {
    RequiredIntTag(m, "msg-param-months", "months not found or not a number")
  }

  function RecipientUsername(m: TwitchMessage): Result<string> {
    RequiredTag(m, "msg-param-recipient-user-name", "username not found")
  }

  function RecipientDisplayName(m: TwitchMessage): Result<string> {
    RequiredTag(m, "msg-param-recipient-display-name", "display name not found")
  }

  function RecipientId(m: TwitchMessage): Result<string> {
    RequiredTag(m, "msg-param-recipient-id", "recipient id not found")
  }

  // === UpgradeGiftMessage ===

  function GiftTotal(m: TwitchMessage): Result<int> {
    RequiredIntTag(m, "msg-param-promo-gift-total", "months not found or not a number")
  }

  function PromoName(m: TwitchMessage): Option<string> { Tag(m, "msg-param-promo-name") }
  function SenderUsername(m: TwitchMessage): Option<string> { Tag(m, "msg-param-sender-login") }
  function SenderDisplayName(m: TwitchMessage): Option<string> { Tag(m, "msg-param-sender-name") }

  // === RaidMessage ===

  function SourceUsername(m: TwitchMessage): Result<string> {
    RequiredTag(m, "msg-param-login", "username (login) not found")
  }

  function SourceDisplayName(m: TwitchMessage): Result<string> {
    RequiredTag(m, "msg-param-displayName", "display name not found")
  }

  function ViewerCount(m: TwitchMessage): Result<int> {
    RequiredIntTag(m, "msg-param-viewerCount", "viewer count not found or not a number")
  }

  // === RitualMessage and BitsBadgeMessage ===

  function RitualName(m: TwitchMessage): Result<string> {
    RequiredTag(m, "msg-param-ritual-name", "ritual name not found")
  }

  function Threshold(m: TwitchMessage): Result<int> {
    RequiredIntTag(m, "msg-param-threshold", "threshold not found or not a number")
  }

  /** The numeric getters: an absent tag is a CorruptedMessage, a present one that is
      not an Int throws NumberFormatException, and the optional streak is null when
      absent. streakShared holds exactly when its tag is "1". */
  lemma ViewGetters(m: TwitchMessage)
    ensures var t := m.rawMessage.tags;
            && ("msg-param-cumulative-months" !in t ==>
                  CumulativeMonths(m) == Err(CorruptedMessage("cumulative months not found or not a number")))
            && ("msg-param-cumulative-months" in t ==> CumulativeMonths(m) == ToInt(t["msg-param-cumulative-months"]))
            && ("msg-param-threshold" !in t ==>
                  Threshold(m) == Err(CorruptedMessage("threshold not found or not a number")))
            && ("msg-param-threshold" in t ==> Threshold(m) == ToInt(t["msg-param-threshold"]))
            && ("msg-param-viewerCount" !in t ==>
                  ViewerCount(m) == Err(CorruptedMessage("viewer count not found or not a number")))
            && ("msg-param-streak-months" !in t ==> Streak(m) == Ok(None))
            && (StreakShared(m) <==> "msg-param-should-share-streak" in t && t["msg-param-should-share-streak"] == "1")
            && (RitualName(m).Ok? <==> "msg-param-ritual-name" in t)
            && (RecipientUsername(m).Ok? <==> "msg-param-recipient-user-name" in t)
            && (SubPlanName(m).Ok? <==> "msg-param-sub-plan-name" in t)
  {
    CountGetters(m);
    OptionalGetters(m);
  }

  lemma CountGetters(m: TwitchMessage)
    ensures var t := m.rawMessage.tags;
            && ("msg-param-cumulative-months" !in t ==>
                  CumulativeMonths(m) == Err(CorruptedMessage("cumulative months not found or not a number")))
            && ("msg-param-cumulative-months" in t ==> CumulativeMonths(m) == ToInt(t["msg-param-cumulative-months"]))
            && ("msg-param-threshold" !in t ==>
                  Threshold(m) == Err(CorruptedMessage("threshold not found or not a number")))
            && ("msg-param-threshold" in t ==> Threshold(m) == ToInt(t["msg-param-threshold"]))
            && ("msg-param-viewerCount" !in t ==>
                  ViewerCount(m) == Err(CorruptedMessage("viewer count not found or not a number")))
  {
  }

  lemma OptionalGetters(m: TwitchMessage)
    ensures var t := m.rawMessage.tags;
            && ("msg-param-streak-months" !in t ==> Streak(m) == Ok(None))
            && (StreakShared(m) <==> "msg-param-should-share-streak" in t && t["msg-param-should-share-streak"] == "1")
            && (RitualName(m).Ok? <==> "msg-param-ritual-name" in t)
            && (RecipientUsername(m).Ok? <==> "msg-param-recipient-user-name" in t)
            && (SubPlanName(m).Ok? <==> "msg-param-sub-plan-name" in t)
  {
  }
}
