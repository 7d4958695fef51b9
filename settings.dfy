/**
 * Configuration-derived values of the notifier: which access token is used, the
 * webhook it is sent to, and the template file chosen by the build's result.
 */
module Settings {
  import opened Wrappers
  import opened JavaText

  /** The robot webhook of the chat service; the token is appended to it. */
  const WebhookBase: string := "https://oapi.dingtalk.com/robot/send?access_token="

  /**
   * `getDingTalkToken`: the job's own token when it is non-empty, otherwise the
   * global one configured for all jobs.
   */
  function ResolveToken(accessToken: JString, globalAccessToken: JString): (r: JString)
    ensures !IsEmpty(accessToken) ==> r == accessToken
    ensures IsEmpty(accessToken) ==> r == globalAccessToken
    ensures IsEmpty(r) <==> IsEmpty(accessToken) && IsEmpty(globalAccessToken)
  {
    if !IsEmpty(accessToken) then accessToken else globalAccessToken
  }

  /** `getDingTaskUrl`: the webhook base followed by the token as Java concatenation prints it. */
  function WebhookUrl(token: JString): (url: string)
    ensures StartsWith(url, WebhookBase)
    ensures token.Some? ==> url[|WebhookBase|..] == token.value
  {
    WebhookBase + ValueOf(token)
  }

  /** The token a webhook URL carries: the inverse of `WebhookUrl`. */
  function TokenOf(url: string): Option<string>
  {
    if StartsWith(url, WebhookBase) then Some(url[|WebhookBase|..]) else None
  }

  /** The token can be read back from the webhook URL, so distinct tokens reach distinct webhooks. */
  lemma WebhookUrlRoundTrip(token: string)
    ensures TokenOf(WebhookUrl(Some(token))) == Some(token)
  {
  }

  /** The results a finished build can have, as the host names them. */
  datatype BuildResult = Success | Unstable | Failure | NotBuilt | Aborted

  /** The result's `toString()`. */
  function ResultName(r: BuildResult): string
  {
    match r
    case Success => "SUCCESS"
    case Unstable => "UNSTABLE"
    case Failure => "FAILURE"
    case NotBuilt => "NOT_BUILT"
    case Aborted => "ABORTED"
  }

  const TemplatePrefix: string := "/dingtalk-"
  const TemplateSuffix: string := ".json"

  /** The template file for a result: `<root>/dingtalk-<result in lower case>.json`. */
  function TemplatePath(rootPath: string, result: BuildResult): (path: string)
    ensures |path| == |rootPath| + |TemplatePrefix| + |ResultName(result)| + |TemplateSuffix|
    ensures StartsWith(path, rootPath + TemplatePrefix)
    ensures EndsWith(path, TemplateSuffix)
    ensures path[|rootPath| + |TemplatePrefix|..|path| - |TemplateSuffix|] == Lower(ResultName(result))
  {
    var path := rootPath + TemplatePrefix + Lower(ResultName(result)) + TemplateSuffix;
    assert path[|rootPath| + |TemplatePrefix|..|path| - |TemplateSuffix|] == Lower(ResultName(result));
    path
  }

  /** The lower-cased names, as they appear in the template file names. */
  lemma LowerResultNames()
    ensures Lower(ResultName(Success)) == "success"
    ensures Lower(ResultName(Unstable)) == "unstable"
    ensures Lower(ResultName(Failure)) == "failure"
    ensures Lower(ResultName(NotBuilt)) == "not_built"
    ensures Lower(ResultName(Aborted)) == "aborted"
  {
    assert Lower("SUCCESS") == "success";
    assert Lower("UNSTABLE") == "unstable";
    assert Lower("FAILURE") == "failure";
    assert Lower("NOT_BUILT") == "not_built";
    assert Lower("ABORTED") == "aborted";
  }

  /** Each result has a template of its own: under one root, distinct results name distinct files. */
  lemma TemplatePathsDistinct(rootPath: string, r1: BuildResult, r2: BuildResult)
    requires r1 != r2
    ensures TemplatePath(rootPath, r1) != TemplatePath(rootPath, r2)
  {
    LowerResultNames();
  }
}
