# DingTalk build notifier — a Dafny model

`DingTalkNotifier` is a post-build step for a Jenkins-style build server. When a build
finishes, `perform` does five things in order:

1. It picks an access token: the job's own token, or the global one when the job's is empty.
2. It loads the template file `<root>/dingtalk-<result>.json` for the build's result.
3. It collects variables from three sources: build parameters (`param.*`), the project's
   accessors, found by reflection (`project.*`), and the first Git remote (`git.*`) or
   Subversion location (`svn.*`).
4. It replaces every `${key}` in the template with the key's value.
5. It posts the result to the DingTalk robot webhook.

Any of these steps can stop quietly: no token, no template file, an empty template, or a
caught exception. Whatever happens, `perform` reports success to the build.

The model has seven modules:

- `Wrappers` (`wrappers.dfy`): `Option`. `None` stands for Java's `null`.
- `JavaText` (`java_text.dfy`): the string operations the notifier uses. These are
  `StringUtils.isEmpty`, `String.valueOf`, `startsWith` and ASCII lower-casing. `EndsWith`
  models the `$` anchor of the regex `\.git$` in `replaceAll`.
- `StringReplace` (`string_replace.dfy`): `String.replace` as a left-to-right scan with no
  overlaps, together with the number of occurrences it replaces.
- `Settings` (`settings.dfy`): `getDingTalkToken`, `getDingTaskUrl`, the build results and
  the template path.
- `Variables` (`variables.dfy`): `isSupported`, `invokeMethod`, the field-name expression,
  the `.git` strip, and the harvesting as methods that fill the map in place: `Harvest`
  calls the loops `PutParams` and `PutProjectEntries`, then `PutScmEntries`. Each method
  is proved against a pure function (`Harvested`, `ParamVariables`, `ProjectVariables`, `ScmVariables`).
- `Template` (`template.dfy`): the substitution loop as the method `Render`. `Render` is
  proved against `Substitute`, a fold over one possible iteration order of the map.
- `Notifier` (`notifier.dfy`): `perform` as the method `Perform`, with every early exit.

Reflection is replaced by plain data. An `Accessor` records a method's name, its number of
parameters, the kind of its return type and the outcome of calling it: it threw, it
returned `null`, or it returned some text. The source-control binding is the tagged union
`Git(remotes) | Subversion(locations) | OtherScm | NoScm`. Several things that the
original reads from the environment become parameters of `Perform`:

- the server's root path;
- the files under that root, as a map from path to text (a missing path is a missing file);
- the build: its result, its build variables, and its project, which is `None` when the
  project is not a `Project`.

For an `is…` accessor the start index is 0, so the field keeps its prefix: `isXyz` gives
`project.isXyz`. Only `get…` accessors lose their prefix: `getXyz` gives `project.xyz`.

## Model

| member | source | states |
|---|---|---|
| Settings.ResolveToken | src/main/java/com/xiangsikang/dingtalkplugin/DingTalkNotifier.java:57-59 | The token is the job's `accessToken` when it is non-empty, otherwise the global token. The resolved token is empty exactly when both are empty. |
| Settings.WebhookUrl | src/main/java/com/xiangsikang/dingtalkplugin/DingTalkNotifier.java:61-63 | The URL starts with `https://oapi.dingtalk.com/robot/send?access_token=`, and the rest of it is exactly the token. |
| Settings.WebhookUrlRoundTrip | src/main/java/com/xiangsikang/dingtalkplugin/DingTalkNotifier.java:61-63 | The token can be read back from the URL, so distinct tokens give distinct webhooks. |
| Settings.TemplatePath | src/main/java/com/xiangsikang/dingtalkplugin/DingTalkNotifier.java:72 | The path is the root followed by `/dingtalk-`, the lower-cased result name, and `.json`. |
| Settings.LowerResultNames | src/main/java/com/xiangsikang/dingtalkplugin/DingTalkNotifier.java:72 | Gives the file-name segment of each result: `success`, `unstable`, `failure`, `not_built`, `aborted`. |
| Settings.TemplatePathsDistinct | src/main/java/com/xiangsikang/dingtalkplugin/DingTalkNotifier.java:72 | Under one root, distinct results select distinct template files. |
| JavaText.Lower | src/main/java/com/xiangsikang/dingtalkplugin/DingTalkNotifier.java:72 | `toLowerCase` keeps the length and lower-cases each character on its own. |
| JavaText.LowerIdempotent | src/main/java/com/xiangsikang/dingtalkplugin/DingTalkNotifier.java:72 | A lower-cased name has no upper-case letter left, so lower-casing it again changes nothing. |
| Variables.InvokeMethod | src/main/java/com/xiangsikang/dingtalkplugin/DingTalkNotifier.java:145-151 | The result is `null` exactly when the call throws. A call that returns `null` gives the text `"null"`. Otherwise the result is the returned value's text. |
| Variables.UnsupportedKinds | src/main/java/com/xiangsikang/dingtalkplugin/DingTalkNotifier.java:140-143 | `isSupported` rejects exactly `byte`, `char` and `void`, and every class that is neither a `CharSequence` nor a `Number`. It accepts every other return kind. |
| Variables.PrefixStart | src/main/java/com/xiangsikang/dingtalkplugin/DingTalkNotifier.java:93 | The start index is 0 for a name starting with `is`, 3 for any other name starting with `get`, and -1 otherwise. It never exceeds the name's length, and it equals that length only for the bare name `get`. |
| Variables.FieldName | src/main/java/com/xiangsikang/dingtalkplugin/DingTalkNotifier.java:99 | The field name is the accessor's name from the start index on. Its first letter is lower-cased and is no longer upper case, and every later letter is unchanged. |
| Variables.GetterFieldRoundTrip | src/main/java/com/xiangsikang/dingtalkplugin/DingTalkNotifier.java:93-99 | `getXyz` starts at index 3 and gives the field `xyz`. Upper-casing that field's first letter and putting `get` back gives `getXyz` again. |
| Variables.IsAccessorKeepsName | src/main/java/com/xiangsikang/dingtalkplugin/DingTalkNotifier.java:93-99 | For `isXyz`, the start index is 0 and the field name is the whole method name. |
| Variables.AccessorStepWrites | src/main/java/com/xiangsikang/dingtalkplugin/DingTalkNotifier.java:92-101 | One turn of the loop (`AccessorStep`): an accessor writes a key if and only if it takes no arguments, has a supported return type, is named `is…`/`get…`, does not throw, and has a name longer than its prefix. The key is exactly `project.` followed by `FieldName` of the name from `PrefixStart`, and the value is the accessor's text. A method named exactly `get` that returns a value makes the run fail. |
| Variables.ProjectVariablesFail | src/main/java/com/xiangsikang/dingtalkplugin/DingTalkNotifier.java:91-103 | The accessor loop fails exactly when some accessor makes `substring` throw. |
| Variables.ProjectVariablesLastWriteWins | src/main/java/com/xiangsikang/dingtalkplugin/DingTalkNotifier.java:91-103 | The `project.` keys are exactly those some accessor writes. Each key holds the value of the last accessor that writes it. |
| Variables.PutProjectEntries | src/main/java/com/xiangsikang/dingtalkplugin/DingTalkNotifier.java:89-103 | The loop over the accessors fails exactly when `ProjectVariables` is `None`. Otherwise the map is the previous map overwritten by the `project.` entries. |
| Variables.StripGitSuffix | src/main/java/com/xiangsikang/dingtalkplugin/DingTalkNotifier.java:111 | A URL ending in `.git` loses exactly that suffix: adding `.git` back gives the URL. Any other URL is unchanged. |
| Variables.StripGitSuffixOnce | src/main/java/com/xiangsikang/dingtalkplugin/DingTalkNotifier.java:111 | Only one `.git` is removed: any text followed by `.git` strips back to that text. |
| Variables.ScmVariablesKeys | src/main/java/com/xiangsikang/dingtalkplugin/DingTalkNotifier.java:105-121 | For Git, the keys are `git.name`, `git.url`, `git.cloneUrl` and `git.refspec`, taken from remote 0 only: `git.cloneUrl` is the raw URL and `git.url` is that URL without `.git`. For Subversion, the only key is `svn.url`, from location 0. An empty list, another kind of source control, or none adds nothing. |
| Variables.GitOriginExample | src/main/java/com/xiangsikang/dingtalkplugin/DingTalkNotifier.java:108-114 | The remote `origin` at `https://host/repo.git` gives `git.url = https://host/repo` and keeps the raw URL as `git.cloneUrl`. |
| Variables.PutScmEntries | src/main/java/com/xiangsikang/dingtalkplugin/DingTalkNotifier.java:105-121 | The source-control puts fail exactly on a null URL in the first Git remote. Otherwise they overwrite the map with the source-control entries. |
| Variables.ParamVariablesComplete | src/main/java/com/xiangsikang/dingtalkplugin/DingTalkNotifier.java:82-87 | Every build variable `k` appears as `param.k`, with its value. |
| Variables.ParamVariablesSound | src/main/java/com/xiangsikang/dingtalkplugin/DingTalkNotifier.java:82-87 | Every parameter key is `param.` followed by the name of a build variable. |
| Variables.PutParams | src/main/java/com/xiangsikang/dingtalkplugin/DingTalkNotifier.java:82-87 | After the loop over the build variables, which visits them in the map's own order, the map holds exactly the `param.` entries. |
| Variables.HarvestedContents | src/main/java/com/xiangsikang/dingtalkplugin/DingTalkNotifier.java:80-121 | The map is written parameters first, then project entries, then source-control entries, and a later put overwrites an earlier one. The three parts use separate namespaces (`param.`, `project.`, `git.`/`svn.`), so that order hides no entry. Every build variable, every project entry and every source-control entry reaches the map, and the map has no other key. |
| Variables.Harvest | src/main/java/com/xiangsikang/dingtalkplugin/DingTalkNotifier.java:80-121 | The in-place harvest fails exactly when `Harvested` is `None`: the cast to `Project` throws, an accessor named exactly `get` that takes no arguments and has a supported return type returns a value without throwing, or Git remote 0 has a null URL. Otherwise the map is exactly the map `Harvested` gives. |
| StringReplace.Replace | src/main/java/com/xiangsikang/dingtalkplugin/DingTalkNotifier.java:127 | The leftmost, non-overlapping scan that `String.replace` performs. When it replaces no occurrence, the text comes back unchanged. |
| StringReplace.ReplaceLength | src/main/java/com/xiangsikang/dingtalkplugin/DingTalkNotifier.java:127 | The result length is `|content| + n*(|value| - |pattern|)`, where `n` is the number of occurrences the scan replaces. |
| StringReplace.CountPositiveIffContains | src/main/java/com/xiangsikang/dingtalkplugin/DingTalkNotifier.java:127 | The scan replaces something exactly when the pattern occurs somewhere in the text. |
| StringReplace.ReplaceWithoutOccurrence | src/main/java/com/xiangsikang/dingtalkplugin/DingTalkNotifier.java:127 | Text that does not contain the pattern comes back unchanged. |
| StringReplace.ReplaceWithItself | src/main/java/com/xiangsikang/dingtalkplugin/DingTalkNotifier.java:127 | Replacing the pattern with itself is the identity, so inserted text is not scanned again. |
| StringReplace.ReplaceSplit | src/main/java/com/xiangsikang/dingtalkplugin/DingTalkNotifier.java:127 | When no occurrence straddles the seam between two texts, their concatenation is replaced piece by piece. |
| Template.Placeholder | src/main/java/com/xiangsikang/dingtalkplugin/DingTalkNotifier.java:127 | The pattern for a key is `$`, `{`, the key, and `}`. |
| Template.PlaceholderKept | src/main/java/com/xiangsikang/dingtalkplugin/DingTalkNotifier.java:127 | Take two distinct keys with no `$`, `{` or `}`. Replacing the first key's placeholder leaves an occurrence of the second key's placeholder intact, and replaces the text on either side of it separately. |
| Template.ReplaceAtPlaceholder | src/main/java/com/xiangsikang/dingtalkplugin/DingTalkNotifier.java:127 | For a key with no `$`, `{` or `}`, an occurrence of its placeholder becomes the value, and the text on either side is replaced separately. |
| Template.Render | src/main/java/com/xiangsikang/dingtalkplugin/DingTalkNotifier.java:123-129 | The loop visits each key of the map once, in the map's order, and replaces the placeholders of every key whose value is not null. The result is the fold `Substitute` over that order. |
| Template.SubstituteWithoutPlaceholders | src/main/java/com/xiangsikang/dingtalkplugin/DingTalkNotifier.java:123-129 | A template that holds no placeholder of a key with a non-null value is rendered unchanged, whatever the order. |
| Template.NullEntryIgnored | src/main/java/com/xiangsikang/dingtalkplugin/DingTalkNotifier.java:124-128 | An entry with a null value has no effect: rendering is the same as without it. |
| Template.UnknownPlaceholderSurvives | src/main/java/com/xiangsikang/dingtalkplugin/DingTalkNotifier.java:123-129 | If a key is missing from the map, or maps to null, its `${k}` is still present after rendering. This holds for any order, provided no key contains `$`, `{` or `}`. |
| Template.TwoKeyOrders | src/main/java/com/xiangsikang/dingtalkplugin/DingTalkNotifier.java:123 | A map with two keys is enumerated in one of exactly two orders. |
| Template.SubstituteTwo | src/main/java/com/xiangsikang/dingtalkplugin/DingTalkNotifier.java:123-129 | Take a template holding the placeholders of two distinct keys with no `$`, `{` or `}`, with no `$` in the surrounding text or in either value. In either order, it renders to the text with both placeholders replaced by their values. |
| Template.RenderExample | src/main/java/com/xiangsikang/dingtalkplugin/DingTalkNotifier.java:123-129 | `{"x":"${project.name}-${param.BRANCH}"}`, with its placeholders written as `Placeholder("project.name")` and `Placeholder("param.BRANCH")`, renders to `{"x":"demo-main"}` with `demo` and `main`, in either order. |
| Notifier.Perform | src/main/java/com/xiangsikang/dingtalkplugin/DingTalkNotifier.java:66-137 | `perform` returns true on every path. It skips when the token is empty and, for a build that has a result, when the template file is missing or the template is empty. A null build result or a failed harvest gives `Failed`. It sends exactly when the token is non-empty, the build has a result, its template file exists and is non-empty, and the harvest does not fail. What it sends goes to `WebhookUrl(token)`, and the payload is the template rendered with the harvested map in one of the map's orders. |

## Left out

- `sendMessage` and `getHttpClient` (lines 153-189) are not modelled. They are HTTP delivery and proxy setup through a library that is not part of this model. The model stops at the `Sent(url, payload)` outcome; a failed delivery is swallowed in the source anyway.
- `DescriptorImpl.configure`, `save` and `getDisplayName`, and `getRequiredMonitorService`, are not modelled. They are UI and host persistence; the global token is a plain field of the notifier's configuration.
- `Jenkins.getInstance()` and the root path are not modelled; the root path is a parameter of `Perform`. A null Jenkins instance is not modelled.
- `FileUtils.readFileToString` is modelled as a lookup in a map from path to text. An I/O error while reading a file that exists is not modelled.
- Logging and console output (`System.out.println`, `logger`, `printStackTrace`) are left out.
- Reflection is not modelled: the accessors of `Project` are an explicit sequence in the order reflection lists them. Which methods a `Project` declares, and how the return type's class hierarchy decides `isSupported`, are abstracted into `ReturnKind`. `hudson.model.Result` is not part of this model: its five `toString` names are written out in `ResultName`.
- `Template.UnknownPlaceholderSurvives`: holds only when no key of the map contains `$`, `{` or `}`. With such keys the claim can fail: for the key `${x}`, the template `${${x}}` holds `${x}`, but replacing `${${x}}` removes that occurrence.
- The iteration order of `HashMap` is not fixed by the model. `Render` picks keys in an arbitrary order, and the properties are proved for every order. The result does depend on the order when one value contains another key's placeholder, and the model makes no claim that it does not.
- `JavaText.Lower`: lower-cases ASCII letters only, where Java's `toLowerCase` follows the default locale.
- `Variables.FieldName`: lower-cases ASCII letters only, where Java's `toLowerCase` follows the default locale.
- `Variables.StripGitSuffix`: does not model that `$` in the regex `\.git$` also matches before a final line terminator. URLs are taken to have no line terminator.
- A `null` element in the Git remote list or the Subversion location list is not modelled. A null list is taken to be empty, which is how `isNotEmpty` treats it.
- `build.getBuildVariables()` is called twice (lines 82-83). The model assumes both calls give the same map.
