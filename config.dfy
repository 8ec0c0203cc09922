/** The bot's configuration: the constants the rate limiter and the input
    validators read, and the start-up self-check `validate_config`. */
module Config {

  // Bot credentials and administrators
  const API_TOKEN: string := "your_bot_token_here"
  const ADMIN_IDS: seq<int> := [123456789]

  // Files
  const FILE_ENCODING: string := "utf-8"

  // Survey and answer bounds
  const MAX_SURVEY_NAME_LENGTH: int := 100
  const MIN_SURVEY_NAME_LENGTH: int := 3
  const MAX_SURVEY_DESCRIPTION_LENGTH: int := 500
  const MIN_SURVEY_DESCRIPTION_LENGTH: int := 10
  const MAX_QUESTIONS: int := 20
  const MIN_QUESTIONS: int := 1
  const MAX_SURVEYS: int := 10
  const MAX_ANSWER_LENGTH: int := 1000

  // Rate limiting (windows in seconds)
  const RATE_LIMIT_MAX_REQUESTS: int := 5
  const RATE_LIMIT_WINDOW: int := 60
  const ADMIN_RATE_LIMIT_MAX_REQUESTS: int := 20
  const ADMIN_RATE_LIMIT_WINDOW: int := 60
  const RATE_LIMIT_CLEANUP_TIME: int := 3600

  // Intervals (seconds)
  const CLEANUP_INTERVAL: int := 3600
  const ERROR_RETRY_INTERVAL: int := 300

  /** The dynamically typed values `validate_config` inspects with
      `isinstance` and Python truthiness. */
  datatype Value = Str(s: string) | Int(i: int) | List(items: seq<Value>) | NoneValue

  /** Python truthiness of a value: empty strings and lists, zero and None are false. */
  predicate Truthy(v: Value) {
    match v
    case Str(s) => s != []
    case Int(i) => i != 0
    case List(xs) => xs != []
    case NoneValue => false
  }

  /** The class attributes `validate_config` reads. */
  datatype Settings = Settings(
    apiToken: Value,
    adminIds: Value,
    fileEncoding: Value,
    maxSurveyNameLength: int,
    minSurveyNameLength: int,
    maxSurveyDescriptionLength: int,
    minSurveyDescriptionLength: int,
    maxQuestions: int,
    minQuestions: int)

  /** The values the configuration class ships with. */
  const SHIPPED: Settings := Settings(
    Str(API_TOKEN),
    List(seq(|ADMIN_IDS|, i requires 0 <= i < |ADMIN_IDS| => Int(ADMIN_IDS[i]))),
    Str(FILE_ENCODING),
    MAX_SURVEY_NAME_LENGTH, MIN_SURVEY_NAME_LENGTH,
    MAX_SURVEY_DESCRIPTION_LENGTH, MIN_SURVEY_DESCRIPTION_LENGTH,
    MAX_QUESTIONS, MIN_QUESTIONS)

  /** One per assertion of `validate_config`, in the order they are evaluated. */
  datatype ConfigError =
    | BadApiToken
    | BadAdminIds
    | NonIntegerAdminId
    | MissingFileEncoding
    | BadNameBounds
    | BadDescriptionBounds
    | BadQuestionBounds

  /** Position of an assertion in `validate_config`. */
  function Rank(e: ConfigError): nat {
    match e
    case BadApiToken => 0
    case BadAdminIds => 1
    case NonIntegerAdminId => 2
    case MissingFileEncoding => 3
    case BadNameBounds => 4
    case BadDescriptionBounds => 5
    case BadQuestionBounds => 6
  }

  predicate IsInt(v: Value) { v.Int? }

  /** Whether `c` passes the assertion named by `e`. The integer check is only
      reached once ADMIN_IDS is known to be a list, so a non-list passes it
      vacuously here; the earlier assertion rejects it. */
  predicate Passes(c: Settings, e: ConfigError) {
    match e
    case BadApiToken => Truthy(c.apiToken) && c.apiToken.Str?
    case BadAdminIds => Truthy(c.adminIds) && c.adminIds.List?
    case NonIntegerAdminId =>
      c.adminIds.List? ==> forall k :: 0 <= k < |c.adminIds.items| ==> IsInt(c.adminIds.items[k])
    case MissingFileEncoding => Truthy(c.fileEncoding)
    case BadNameBounds => c.maxSurveyNameLength > c.minSurveyNameLength
    case BadDescriptionBounds => c.maxSurveyDescriptionLength > c.minSurveyDescriptionLength
    case BadQuestionBounds => c.maxQuestions > c.minQuestions
  }

  datatype Verdict = Accepted | Rejected(error: ConfigError)

  /** `validate_config`: the assertions run in order and the first one that
      fails is the one reported. */
  function ValidateConfig(c: Settings): (v: Verdict)
    ensures v.Accepted? <==> forall e :: Passes(c, e)
    ensures v.Rejected? ==>
      !Passes(c, v.error) && forall e :: Rank(e) < Rank(v.error) ==> Passes(c, e)
  {
    if !Passes(c, BadApiToken) then Rejected(BadApiToken)
    else if !Passes(c, BadAdminIds) then Rejected(BadAdminIds)
    else if !Passes(c, NonIntegerAdminId) then Rejected(NonIntegerAdminId)
    else if !Passes(c, MissingFileEncoding) then Rejected(MissingFileEncoding)
    else if !Passes(c, BadNameBounds) then Rejected(BadNameBounds)
    else if !Passes(c, BadDescriptionBounds) then Rejected(BadDescriptionBounds)
    else if !Passes(c, BadQuestionBounds) then Rejected(BadQuestionBounds)
    else Accepted
  }

  /** Whatever else they hold, settings pass the check only when the token is
      a non-empty string, the administrator list is a non-empty list of
      integers, an encoding is named, and every maximum exceeds its minimum. */
  lemma AcceptedSettings(c: Settings)
    requires ValidateConfig(c).Accepted?
    ensures c.apiToken.Str? && c.apiToken.s != []
    ensures c.adminIds.List? && c.adminIds.items != []
    ensures forall k :: 0 <= k < |c.adminIds.items| ==> c.adminIds.items[k].Int?
    ensures Truthy(c.fileEncoding)
    ensures c.minSurveyNameLength < c.maxSurveyNameLength
    ensures c.minSurveyDescriptionLength < c.maxSurveyDescriptionLength
    ensures c.minQuestions < c.maxQuestions
  {
    assert Passes(c, BadApiToken) && Passes(c, BadAdminIds) && Passes(c, NonIntegerAdminId);
    assert Passes(c, MissingFileEncoding) && Passes(c, BadNameBounds);
    assert Passes(c, BadDescriptionBounds) && Passes(c, BadQuestionBounds);
  }

  /** The shipped configuration passes its own check. */
  lemma ShippedConfigIsValid()
    ensures ValidateConfig(SHIPPED) == Accepted
  {
    var ids := SHIPPED.adminIds.items;
    assert |ids| == 1 && ids[0] == Int(123456789);
    assert Passes(SHIPPED, NonIntegerAdminId);
  }

  /** The shipped bounds are strictly ordered, so some non-empty survey name,
      description and question list fits them. */
  lemma ShippedBoundsOrdered()
    ensures 0 < MIN_SURVEY_NAME_LENGTH < MAX_SURVEY_NAME_LENGTH
    ensures 0 < MIN_SURVEY_DESCRIPTION_LENGTH < MAX_SURVEY_DESCRIPTION_LENGTH
    ensures 0 < MIN_QUESTIONS < MAX_QUESTIONS
  {
  }

  /** Administrators get a larger threshold over the same window, and both
      thresholds admit a fresh entry whose count is 1. */
  lemma RateLimitThresholds()
    ensures 1 <= RATE_LIMIT_MAX_REQUESTS < ADMIN_RATE_LIMIT_MAX_REQUESTS
    ensures RATE_LIMIT_WINDOW == ADMIN_RATE_LIMIT_WINDOW == 60
  {
  }
}
