# nping-agent management view — a Dafny model

This project models the decision logic of the LuCI management page for the
NPing node agent (`view/nping-agent/manage.js`). The page does little work
itself. It runs helper scripts (`nping-agent-call arch|download|register|start`
and the init script's `status|stop`), reads their exit code, stdout and stderr,
and reads and writes the `nping-agent` UCI package. The model covers what the
page decides from those answers:

- which page `render` shows: the install page, the not-registered page or the
  normal page;
- how the architecture detected by the `arch` helper is degraded, normalised
  and used to enable the install button and build the download command;
- the `ERROR_CODE:` convention on stderr: token extraction (`split(...)[1].trim()`),
  the install, register and start lookup tables, and the notification text
  each failure produces;
- the success predicates: `SUCCESS` or `running` on stdout, together with exit
  code 0;
- the guards that stop a command from being issued: unknown or missing
  architecture, blank registration key or node name, empty `agent_id` on start,
  and a missing configuration section;
- the commit guard around UCI writes: refuse when changes are pending, report
  when nothing changed, apply otherwise.

Modules:

- `Text`: JavaScript `trim` and `indexOf` on `seq<char>`. Each is specified
  against an independent definition (`IsBlank`/`IsTrimmed` for trim, `Occurs`
  for indexOf).
- `JsValues`: JSON values as the page sees them, with truthiness,
  `typeof === 'object'` and string conversion.
- `Commands`: the helper commands, their results, the error token, the
  classification tables and messages, and the success predicates.
- `Architecture`: detection, normalisation, the install button rule and the
  install operation.
- `ConfigStore`: the UCI package as committed and staged values, plus the
  commit guard.
- `Lifecycle`: page selection, registration, service control and saving
  settings.

Every external effect is a parameter:

- The command runner is a function `Command -> Option<ExecResult>`, where `None`
  stands for a rejected call.
- `JSON.parse` is a function `string -> Option<JsValue>`, where `None` stands
  for a throw.
- The UCI package is a value.

Each operation returns the commands it issued, so "no process is started" is
a statement about that list.

An install with `mapped === 'unknown'` is rejected with its own reason
(`UnknownArchitecture`), separately from the invalid-architecture rejection. Both
show the same notification and issue no command.

## Model

| member | source | states |
|---|---|---|
| Text.Trim | applications/luci-app-nping-agent/htdocs/luci-static/resources/view/nping-agent/manage.js:331-339 | The trimmed text has no blank at either end. It is empty exactly when the input is blank. It is the input with a blank prefix and a blank suffix removed. |
| Text.TrimOfPadded | applications/luci-app-nping-agent/htdocs/luci-static/resources/view/nping-agent/manage.js:120 | Trimming blank padding off an already trimmed text gives that text back, so the contract of `Trim` determines its result. |
| Text.TrimIdempotent | applications/luci-app-nping-agent/htdocs/luci-static/resources/view/nping-agent/manage.js:674 | Trimming twice equals trimming once. |
| Text.IndexOf | applications/luci-app-nping-agent/htdocs/luci-static/resources/view/nping-agent/manage.js:114 | `indexOf` is -1 exactly when the pattern occurs nowhere. Otherwise it is the position of the first occurrence. |
| Text.Contains | applications/luci-app-nping-agent/htdocs/luci-static/resources/view/nping-agent/manage.js:55 | `indexOf(...) !== -1` holds exactly when the pattern occurs. |
| Commands.ReportsSuccess | applications/luci-app-nping-agent/htdocs/luci-static/resources/view/nping-agent/manage.js:114 | A download or start counts as successful only when the exit code is 0 and `SUCCESS` occurs on stdout. Either one alone is not enough. |
| Commands.ReportsRunning | applications/luci-app-nping-agent/htdocs/luci-static/resources/view/nping-agent/manage.js:492-493 | The service counts as running only when the exit code is 0 and `running` occurs on stdout. |
| Commands.ProbeRunning | applications/luci-app-nping-agent/htdocs/luci-static/resources/view/nping-agent/manage.js:207-214 | The status probe at page load reports running only when the call resolved, exited 0 and printed `running`. A rejected call reports not running. |
| Commands.ErrorToken | applications/luci-app-nping-agent/htdocs/luci-static/resources/view/nping-agent/manage.js:119-120 | A token is extracted exactly when stderr contains `ERROR_CODE:`, and the token is always trimmed. |
| Commands.ErrorTokenAfterMarker | applications/luci-app-nping-agent/htdocs/luci-static/resources/view/nping-agent/manage.js:120 | With a single marker, the token is the trimmed text after it. Text before the marker is ignored. |
| Commands.ErrorTokenBetweenMarkers | applications/luci-app-nping-agent/htdocs/luci-static/resources/view/nping-agent/manage.js:120 | With a second marker, the token stops there. Everything after the second marker is ignored. |
| Commands.LookupCode | applications/luci-app-nping-agent/htdocs/luci-static/resources/view/nping-agent/manage.js:121-136 | The install table finds a code exactly when it names one of the four install failures, and then returns that failure. |
| Commands.Classify | applications/luci-app-nping-agent/htdocs/luci-static/resources/view/nping-agent/manage.js:118-137 | The failure is "no error code" exactly when stderr has no marker. Otherwise its code name is the extracted token, and the failure is one the operation's table knows or an unrecognised code that the table does not list. |
| Commands.ClassifyRoundTrip | applications/luci-app-nping-agent/htdocs/luci-static/resources/view/nping-agent/manage.js:363-377 | A helper that prints a failure's code after the marker, with blank padding and any marker-free text before it, is classified as exactly that failure. |
| Commands.Message | applications/luci-app-nping-agent/htdocs/luci-static/resources/view/nping-agent/manage.js:121-136 | A code outside the operation's table is shown as the operation's default prefix followed by the code. |
| Commands.KnownMessagesDistinct | applications/luci-app-nping-agent/htdocs/luci-static/resources/view/nping-agent/manage.js:116-136 | Within one operation, "no error code" and each kind the table recognises get pairwise different texts. |
| Commands.DefaultMessageCarriesToken | applications/luci-app-nping-agent/htdocs/luci-static/resources/view/nping-agent/manage.js:556-557 | For a code outside the table, the notification is the operation's default prefix followed by the extracted token, unchanged. |
| Commands.RegisterMessageAmbiguous | applications/luci-app-nping-agent/htdocs/luci-static/resources/view/nping-agent/manage.js:369-376 | The unrecognised registration code `Server refused request` produces the same text as `REGISTRATION_FAILED`. |
| Commands.StartMessageAmbiguous | applications/luci-app-nping-agent/htdocs/luci-static/resources/view/nping-agent/manage.js:553-557 | The unrecognised start code `Cannot start service` produces the same text as `SERVICE_START_ERROR`. |
| Architecture.DetectArchitecture | applications/luci-app-nping-agent/htdocs/luci-static/resources/view/nping-agent/manage.js:43-86 | A rejected call, a non-zero exit or unparsable stdout all give `{raw: Unknown, mapped: unknown}`. Otherwise the result is the parsed stdout. |
| Architecture.ShownArch | applications/luci-app-nping-agent/htdocs/luci-static/resources/view/nping-agent/manage.js:226-229 | The install page always works with an object. It has a usable `mapped` exactly when the input was an object with one. |
| Architecture.InstallAgent | applications/luci-app-nping-agent/htdocs/luci-static/resources/view/nping-agent/manage.js:89-141 | No command is issued exactly when the value is not an object with a usable `mapped`. Otherwise exactly one download of `mapped` to `/tmp/nping-agent` is issued. The rejection is `UnknownArchitecture` exactly when `mapped` is `unknown`, and otherwise the invalid-architecture rejection. A rejected download call is reported as such. The install succeeds exactly when the helper reports success, and a failure is classified through the install table. |
| Architecture.InstallButtonMatchesGuard | applications/luci-app-nping-agent/htdocs/luci-static/resources/view/nping-agent/manage.js:227-232 | The install button is disabled exactly when clicking it would be rejected without running anything. |
| Architecture.NormalizeArchAsWritten | applications/luci-app-nping-agent/htdocs/luci-static/resources/view/nping-agent/manage.js:637-649 | `render`'s normalisation as written. Falsy values and non-objects degrade to unknown. An object without a truthy `mapped` becomes its own string conversion under both keys. Other values are kept. |
| Architecture.AsWrittenInventsArchitecture | applications/luci-app-nping-agent/htdocs/luci-static/resources/view/nping-agent/manage.js:643-648 | An object whose `mapped` is empty declares no architecture. As written it still enables install, and the download is for `[object Object]`. |
| Architecture.AsWrittenDropsLegacyString | applications/luci-app-nping-agent/htdocs/luci-static/resources/view/nping-agent/manage.js:638-644 | As written, a bare architecture string such as `arm` never reaches the compatibility branch. It degrades to unknown and install stays disabled. |
| Architecture.NormalizeArch | applications/luci-app-nping-agent/htdocs/luci-static/resources/view/nping-agent/manage.js:637-649 | Corrected normalisation: the result is always an object with a truthy `mapped`. That `mapped` is usable exactly when the input declared a usable name, as an object or as a bare string. It is then that name, and otherwise `unknown`. |
| Architecture.NormalizeArchIdempotent | applications/luci-app-nping-agent/htdocs/luci-static/resources/view/nping-agent/manage.js:637-649 | Normalising an already normalised value changes nothing. |
| Architecture.DetectionDegradesSafely | applications/luci-app-nping-agent/htdocs/luci-static/resources/view/nping-agent/manage.js:61-84 | Whatever the helper and the parser do, the page gets an object. A failed detection leaves install disabled and issues no download. This holds both for the normalisation `render` runs as written and for the corrected one. |
| Architecture.InstallOfferedExactlyForDetectedName | applications/luci-app-nping-agent/htdocs/luci-static/resources/view/nping-agent/manage.js:231-239 | With the corrected normalisation, install is enabled exactly when a usable name was detected, and the click downloads that name. |
| ConfigStore.Set | applications/luci-app-nping-agent/htdocs/luci-static/resources/view/nping-agent/manage.js:608-609 | The new value is visible at once and no other option changes. A change becomes pending exactly when one already was or the value differs from the current one. |
| ConfigStore.Apply | applications/luci-app-nping-agent/htdocs/luci-static/resources/view/nping-agent/manage.js:615 | Applying leaves nothing pending and every option's visible value unchanged. |
| ConfigStore.Written | applications/luci-app-nping-agent/htdocs/luci-static/resources/view/nping-agent/manage.js:401-402 | A sequence of writes stores something for an option exactly when some write touches that option. |
| ConfigStore.CommitGuarded | applications/luci-app-nping-agent/htdocs/luci-static/resources/view/nping-agent/manage.js:394-411 | Pending changes refuse the commit. Writes that all match the current values report "no settings modified". In both refusals the store is unchanged. Otherwise the writes are applied, last write winning, nothing stays pending, and every other option keeps its value. |
| Lifecycle.SectionName | applications/luci-app-nping-agent/htdocs/luci-static/resources/view/nping-agent/manage.js:652-656 | Without sections there is no section name. Otherwise the last section wins. |
| Lifecycle.SelectPage | applications/luci-app-nping-agent/htdocs/luci-static/resources/view/nping-agent/manage.js:660-679 | The install page is shown exactly when the binary is missing. Otherwise the not-registered page is shown exactly when `agent_id` is missing or blank, and the normal page exactly when it is not. |
| Lifecycle.RegisterAgent | applications/luci-app-nping-agent/htdocs/luci-static/resources/view/nping-agent/manage.js:317-431 | Each outcome holds exactly under its condition. A missing section, a blank key and a blank name are checked in that order, and the register command is issued exactly when none applies. The remaining outcomes are call failed, non-zero exit (classified through the register table), unparsable body, rejection without `data` (with its reason) and accepted. An accepted reply is committed: with nothing pending it is applied unless both values are already stored. Only an applied commit changes the store. It then sets `enabled` to `1` and `agent_id` to the returned id, and nothing else. |
| Lifecycle.ResponseAgentId | applications/luci-app-nping-agent/htdocs/luci-static/resources/view/nping-agent/manage.js:389-390 | A reply carries an agent id exactly when it is an object with a truthy `data`. A string `data` is stored verbatim. |
| Lifecycle.RejectionReason | applications/luci-app-nping-agent/htdocs/luci-static/resources/view/nping-agent/manage.js:420 | A rejection shows the reply's truthy string `message` when there is one, and `Unknown error` when there is no truthy `message`. |
| Lifecycle.CommitRegistration | applications/luci-app-nping-agent/htdocs/luci-static/resources/view/nping-agent/manage.js:392-411 | The two registration writes go through the commit guard. Pending changes refuse them. Otherwise they are applied unless both values are already stored, in which case "no settings modified" is reported. If applied, `agent_id` and `enabled` hold the new values and every other option is untouched. |
| Lifecycle.NoSectionMeansUnregistered | applications/luci-app-nping-agent/htdocs/luci-static/resources/view/nping-agent/manage.js:665-669 | Without any section an installed agent shows the not-registered page, and the service button never starts the agent. |
| Lifecycle.RegisteredPage | applications/luci-app-nping-agent/htdocs/luci-static/resources/view/nping-agent/manage.js:665-676 | Once a registration has stored an id, the page shows as registered unless that id is blank. |
| Lifecycle.ToggleService | applications/luci-app-nping-agent/htdocs/luci-static/resources/view/nping-agent/manage.js:480-585 | The status probe is always issued first, and at most two commands are issued. Stop is issued exactly when the probe reports running. Start is issued exactly when it reports not running and an `agent_id` is configured, and then carries that id. Every outcome corresponds to the result of the command that produced it. |
| Lifecycle.NormalPageNeverLacksAgentId | applications/luci-app-nping-agent/htdocs/luci-static/resources/view/nping-agent/manage.js:526-533 | On the normal page, with the store unchanged, the missing-agent-id refusal cannot happen. |
| Lifecycle.ToggleFollowsFreshProbe | applications/luci-app-nping-agent/htdocs/luci-static/resources/view/nping-agent/manage.js:490-493 | When the fresh probe reports running, no start command is issued, whatever the button's label was. |
| Lifecycle.StartUsesRegisteredId | applications/luci-app-nping-agent/htdocs/luci-static/resources/view/nping-agent/manage.js:526-536 | After a registration has stored a non-empty id, starting a stopped service runs the start helper with exactly that id. |
| Lifecycle.SaveSettings | applications/luci-app-nping-agent/htdocs/luci-static/resources/view/nping-agent/manage.js:591-618 | Without a section nothing happens. Pending changes refuse the save. Otherwise "no settings modified" is reported exactly when `enabled` already has the value, and the save is applied exactly when it does not. If applied, only `enabled` changes. The page `render` selects is the same before and after. |

## Left out

- Rendering, DOM construction, modals, notifications' presentation and translation (`_()`) are not modelled. Outcomes and message texts stand for them.
- The asynchronous promise chains, `setTimeout` reloads and the refresh after success are not modelled. Each handler is one synchronous function of the runner's answers.
- The rpc and fs transports (`callExec`, `fs.exec`, `callSystemInfo`) are not modelled. The runner parameter stands for them.
- `JSON.parse` is not modelled. It is a parameter, and the model does not fix its grammar.
- JSON numbers are limited to integers, since the page never branches on non-integer numbers.
- The UCI library is not part of this model. `ConfigStore.Set` assumes that `set` with the value the option already holds stages no change. `save` is the identity and `load` re-reads the same store.
- `uci.save()` is not awaited before the following `uci.changes()` (manage.js lines 403 and 609). The model assumes the save has landed before the change count is read, and does not model a count read too early.
- `uci.apply()` is modelled as always succeeding. The page awaits it (lines 411 and 615) without a `catch`, so a rejected apply only drops the success notice. `Registered(Applied)` and `Saved(Applied)` therefore mean the apply was issued, not that the device confirmed it.
- `getAgentVersion` and the version string are not modelled. Only the `exists` flag reaches page selection.
- `getArchitecture` extracts an error token on failure but only logs it, so the model does not compute it.
- A failed install is rejected inside its own promise. Its `catch` then adds a second generic "Unable to download or install" notification. The model reports the first, classified failure only.
- The form fields' `formvalue` lookups are not modelled. The handlers take the form values as inputs.
- Strings are sequences of code points. UTF-16 surrogate pairs are not modelled, and `trim` never removes one.
- The helper scripts themselves (`nping-agent-call`, the init script) are not part of this model.
- Lifecycle.RegisterAgent: the value stored as `agent_id` is `String(data)`. The page hands `data` to `uci.set` unconverted, and the model does not distinguish the two.

## Findings

| source | as written | input that shows it | evidently intended | confidence | as-written member | corrected member |
|---|---|---|---|---|---|---|
| applications/luci-app-nping-agent/htdocs/luci-static/resources/view/nping-agent/manage.js:637-649 | The compatibility branch for a bare architecture string runs only after non-objects were already degraded. It therefore never sees a string. Instead it rewrites objects that lack a truthy `mapped` to `mapped = toString()`, which is `"[object Object]"`. | Detector output `{"raw":"mips","mapped":""}` enables install and downloads `[object Object]`. Output `"arm"` disables install. | A bare string `s` becomes `{raw: s, mapped: s}`. An object without a usable `mapped` degrades to unknown and install stays disabled. | not executed | Architecture.AsWrittenInventsArchitecture | Architecture.NormalizeArch |
