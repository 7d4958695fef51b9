/**
 * `DingTalkNotifier.perform`: after a build, pick the token, load the template for
 * the build's result, harvest the variables, render, and post to the webhook.
 * Every path, including every exception, reports success to the build.
 */
module Notifier {
  import opened Wrappers
  import opened JavaText
  import opened Settings
  import opened Variables
  import opened Template

  /** The notifier's configuration: the job's token and the global one of its descriptor. */
  datatype DingTalkNotifier = DingTalkNotifier(accessToken: JString, globalAccessToken: JString)

  /** What the notifier reads from the finished build; `None` stands for a `null` the source does not expect. */
  datatype Build = Build(
    result: Option<BuildResult>,
    buildVariables: Option<map<string, JString>>,
    project: Option<ProjectView>)   // `None`: the build's project is not a `Project`

  datatype SkipReason = NoToken | NoTemplate | EmptyTemplate

  /** What one run does: stops quietly, fails with an exception that is caught, or posts a message. */
  datatype Outcome =
    | Skipped(reason: SkipReason)
    | Failed
    | Sent(url: string, payload: string)

  /**
   * The run. `rootPath` is the server's root directory and `files` the text of each
   * file under it (a path absent from the map is a file that does not exist).
   */
  method Perform(notifier: DingTalkNotifier, build: Build, rootPath: string, files: map<string, string>)
    returns (handled: bool, outcome: Outcome)
    ensures handled
    ensures outcome == Skipped(NoToken) <==> IsEmpty(ResolveToken(notifier.accessToken, notifier.globalAccessToken))
    ensures outcome == Skipped(NoTemplate) <==>
      && !IsEmpty(ResolveToken(notifier.accessToken, notifier.globalAccessToken))
      && build.result.Some? && TemplatePath(rootPath, build.result.value) !in files
    ensures outcome == Skipped(EmptyTemplate) <==>
      && !IsEmpty(ResolveToken(notifier.accessToken, notifier.globalAccessToken))
      && build.result.Some? && TemplatePath(rootPath, build.result.value) in files
      && files[TemplatePath(rootPath, build.result.value)] == ""
    ensures outcome.Sent? <==>
      && !IsEmpty(ResolveToken(notifier.accessToken, notifier.globalAccessToken))
      && build.result.Some? && TemplatePath(rootPath, build.result.value) in files
      && files[TemplatePath(rootPath, build.result.value)] != ""
      && Harvested(build.buildVariables, build.project).Some?
    ensures outcome.Sent? ==>
      && outcome.url == WebhookUrl(ResolveToken(notifier.accessToken, notifier.globalAccessToken))
      && exists order ::
           && IsEnumeration(order, Harvested(build.buildVariables, build.project).value)
           && outcome.payload == Substitute(files[TemplatePath(rootPath, build.result.value)], order,
                                            Harvested(build.buildVariables, build.project).value)
  {
    handled := true;
    var token := ResolveToken(notifier.accessToken, notifier.globalAccessToken);
    if IsEmpty(token) {
      outcome := Skipped(NoToken);
      return;
    }
    if build.result.None? {
      // `getResult().toString()` on a null result
      outcome := Failed;
      return;
    }
    var path := TemplatePath(rootPath, build.result.value);
    if path !in files {
      outcome := Skipped(NoTemplate);
      return;
    }
    var content := files[path];
    if content == "" {
      outcome := Skipped(EmptyTemplate);
      return;
    }
    var vars, failed := Harvest(build.buildVariables, build.project);
    if failed {
      outcome := Failed;
      return;
    }
    var payload, order := Render(content, vars);
    outcome := Sent(WebhookUrl(token), payload);
  }
}
