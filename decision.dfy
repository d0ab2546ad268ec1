/**
 * The decision engine (`decide_action`): an ordered rule evaluation over the parsed
 * classifier fields that always yields exactly one action.
 */
module Decision {
  import opened Wrappers
  import opened IntLiteral

  /** Minimum confidence, in percent, needed to act on a classification. */
  const CONFIDENCE_THRESHOLD: int := 70

  /** The action labels; `Error` carries the text that made the evaluation fail. */
  datatype Action =
    | SellBonds
    | BuyEquities
    | RiskOff
    | NotMarketRelevant
    | LowConfidence
    | RuleMismatch
    | Error(message: string)

  /** The exact string `decide_action` returns for each action. */
  function Render(a: Action): string {
    match a
    case SellBonds => "SELL BONDS (Paper Trade)"
    case BuyEquities => "BUY EQUITIES (Paper Trade)"
    case RiskOff => "RISK OFF (Paper Trade)"
    case NotMarketRelevant => "NO ACTION (Not market relevant)"
    case LowConfidence => "NO ACTION (Low confidence)"
    case RuleMismatch => "NO ACTION (Rule mismatch)"
    case Error(message) => ErrorPrefix + message + ")"
  }

  const ErrorPrefix: string := "NO ACTION (Error: "

  /** `int(ai_data.get("Confidence", 0))`: the default 0 when the field is absent,
      None when `int()` would raise. */
  function Confidence(data: map<string, string>): Option<int> {
    if "Confidence" in data then ParseInt(data["Confidence"]) else Some(0)
  }

  /** `ai_data.get("MarketRelevant", "No") == "Yes"`. */
  predicate IsRelevant(data: map<string, string>) {
    "MarketRelevant" in data && data["MarketRelevant"] == "Yes"
  }

  /** The fixed rule table, tried in order; a missing field matches no rule. */
  function RuleTable(category: Option<string>, sentiment: Option<string>): Action {
    if category == Some("MonetaryPolicy") && sentiment == Some("Negative") then SellBonds
    else if category == Some("FiscalPolicy") && sentiment == Some("Positive") then BuyEquities
    else if category == Some("Geopolitics") && sentiment == Some("Negative") then RiskOff
    else RuleMismatch
  }

  /** `decide_action`: the confidence is converted first, so a malformed confidence is an
      error whatever the other fields hold; then relevance, threshold and rule table. */
  function DecideAction(data: map<string, string>): Action {
    match Confidence(data)
    case None => Error(data["Confidence"])
    case Some(confidence) =>
      if !IsRelevant(data) then NotMarketRelevant
      else if confidence < CONFIDENCE_THRESHOLD then LowConfidence
      else RuleTable(Get(data, "Category"), Get(data, "Sentiment"))
  }

  /** The displayed action string of a classification, as `decide_action` returns it. */
  function DecideActionText(data: map<string, string>): string {
    Render(DecideAction(data))
  }

  // ---------------------------------------------------------------- rendering

  predicate StartsWith(s: string, prefix: string) {
    |prefix| <= |s| && s[..|prefix|] == prefix
  }

  /** The rendered action starts with "NO ACTION (Error: " exactly for the error action. */
  lemma RenderErrorPrefix(a: Action)
    ensures StartsWith(Render(a), ErrorPrefix) <==> a.Error?
  {
    var s := Render(a);
    if !a.Error? {
      if |ErrorPrefix| <= |s| {
        match a
        case SellBonds => assert s[0] != ErrorPrefix[0];
        case BuyEquities => assert s[0] != ErrorPrefix[0];
        case RiskOff => assert s[0] != ErrorPrefix[0];
        case NotMarketRelevant => assert s[11] != ErrorPrefix[11];
        case LowConfidence => assert s[11] != ErrorPrefix[11];
        case RuleMismatch => assert s[11] != ErrorPrefix[11];
      }
    } else {
      assert s[..|ErrorPrefix|] == ErrorPrefix;
    }
  }

  /** Distinct actions are displayed as distinct strings, so the string determines the action. */
  lemma RenderInjective(a: Action, b: Action)
    requires Render(a) == Render(b)
    ensures a == b
  {
    RenderErrorPrefix(a);
    RenderErrorPrefix(b);
    if a.Error? && b.Error? {
      var n := |ErrorPrefix|;
      assert a.message == Render(a)[n..|Render(a)| - 1];
      assert b.message == Render(b)[n..|Render(b)| - 1];
    } else if !a.Error? && !b.Error? {
      var s, t := Render(a), Render(b);
      match a
      case SellBonds => assert s[0] == 'S';
      case BuyEquities => assert s[0] == 'B';
      case RiskOff => assert s[1] == 'I';
      case NotMarketRelevant => assert s[14] == ' ';
      case LowConfidence => assert s[11] == 'L';
      case RuleMismatch => assert s[11] == 'R';
    }
  }

  // ---------------------------------------------------------------- decision rules

  /** The error action is reached exactly when a Confidence field is present and is not an
      integer literal; the other fields do not matter. */
  lemma ErrorIff(data: map<string, string>)
    ensures DecideAction(data).Error? <==> "Confidence" in data && ParseInt(data["Confidence"]) == None
    ensures DecideAction(data).Error? ==> StartsWith(DecideActionText(data), ErrorPrefix)
    ensures !DecideAction(data).Error? ==> !StartsWith(DecideActionText(data), ErrorPrefix)
  {
    RenderErrorPrefix(DecideAction(data));
  }

  /** An irrelevant classification with a usable confidence is "Not market relevant", and
      nothing else is. */
  lemma NotRelevantIff(data: map<string, string>)
    ensures DecideAction(data) == NotMarketRelevant <==> Confidence(data).Some? && !IsRelevant(data)
  {
  }

  /** Below the threshold a relevant classification is "Low confidence", and nothing else is. */
  lemma LowConfidenceIff(data: map<string, string>)
    ensures DecideAction(data) == LowConfidence <==>
            IsRelevant(data) && Confidence(data).Some? && Confidence(data).value < CONFIDENCE_THRESHOLD
  {
  }

  /** A relevant classification at or above the threshold is decided by the rule table. */
  lemma ConfidentUsesRuleTable(data: map<string, string>)
    requires IsRelevant(data) && Confidence(data).Some? && Confidence(data).value >= CONFIDENCE_THRESHOLD
    ensures DecideAction(data) == RuleTable(Get(data, "Category"), Get(data, "Sentiment"))
  {
  }

  /** The three trading rules and the fall-through, each in both directions. */
  lemma RuleTableCases(category: Option<string>, sentiment: Option<string>)
    ensures RuleTable(category, sentiment) == SellBonds <==> category == Some("MonetaryPolicy") && sentiment == Some("Negative")
    ensures RuleTable(category, sentiment) == BuyEquities <==> category == Some("FiscalPolicy") && sentiment == Some("Positive")
    ensures RuleTable(category, sentiment) == RiskOff <==> category == Some("Geopolitics") && sentiment == Some("Negative")
    ensures RuleTable(category, sentiment) == RuleMismatch <==>
            !(category == Some("MonetaryPolicy") && sentiment == Some("Negative")) &&
            !(category == Some("FiscalPolicy") && sentiment == Some("Positive")) &&
            !(category == Some("Geopolitics") && sentiment == Some("Negative"))
  {
  }

  /** The threshold boundary for any integer confidence written in decimal. */
  lemma ThresholdBoundary(data: map<string, string>, c: int)
    requires IsRelevant(data) && "Confidence" in data && data["Confidence"] == ShowInt(c)
    ensures c < CONFIDENCE_THRESHOLD ==> DecideAction(data) == LowConfidence
    ensures c >= CONFIDENCE_THRESHOLD ==> DecideAction(data) == RuleTable(Get(data, "Category"), Get(data, "Sentiment"))
  {
    ParseShowInt(c);
  }

  /** The empty classification is "Not market relevant". */
  lemma EmptyClassification()
    ensures DecideActionText(map[]) == "NO ACTION (Not market relevant)"
  {
  }

  /** 69 is below the threshold. */
  lemma LowConfidenceExample()
    ensures DecideActionText(map["MarketRelevant" := "Yes", "Confidence" := "69"]) == "NO ACTION (Low confidence)"
  {
    assert ShowInt(69) == "69";
    ParseShowInt(69);
  }

  /** 70 reaches the rule table, and with no category or sentiment no rule matches. */
  lemma ThresholdExample()
    ensures DecideActionText(map["MarketRelevant" := "Yes", "Confidence" := "70"]) == "NO ACTION (Rule mismatch)"
  {
    assert ShowInt(70) == "70";
    ParseShowInt(70);
  }

  /** A confident negative monetary-policy classification sells bonds; a positive one falls
      through to the mismatch. */
  lemma RuleExamples(data: map<string, string>)
    requires data == map["MarketRelevant" := "Yes", "Confidence" := "90", "Category" := "MonetaryPolicy"]
    ensures DecideActionText(data["Sentiment" := "Negative"]) == "SELL BONDS (Paper Trade)"
    ensures DecideActionText(data["Sentiment" := "Positive"]) == "NO ACTION (Rule mismatch)"
  {
    assert ShowInt(90) == "90";
    ParseShowInt(90);
  }

  /** A non-integer confidence is an error even when the headline is not relevant. */
  lemma ErrorExample()
    ensures DecideAction(map["MarketRelevant" := "No", "Confidence" := "abc"]) == Error("abc")
    ensures DecideActionText(map["Confidence" := "abc"]) == "NO ACTION (Error: abc)"
  {
    assert !IsDigit("abc"[0]);
  }
}
