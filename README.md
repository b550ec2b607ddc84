# matrix-pstn-bridge call-session core in Dafny

This project models the parts of matrix-pstn-bridge that run without I/O, and proves properties of them. The bridge links Matrix rooms to telephone numbers. Each part below is a Dafny module.

- **Call** (`call.dfy`) models the per-call state machine `PhoneCall`.
  - `PhoneCall` is a class with a `state` field and a ghost log of the events the call emits.
  - Its setter refuses to move backwards and treats HUNGUP as final. The comparison is strict, so re-assigning the current state is applied and emits again.
  - The constructor's listeners turn `send_invite`, `send_accept` and `send_hangup` into state requests, and turn a `statechange` into FAILED or HUNGUP into `ended`.
  - The class has four guards.
  - Pure functions `Next`, `Transition`, `Run` and `Trace` state what one assignment, or a sequence of them, does.
- **Util** (`util.ts`'s `TupleLookup`, in `util.dfy`) is a map keyed by fixed-length tuples, built from one nested map per tuple element.
  - The class keeps the base map as a field. It refines a ghost `map<seq<K>, V>`.
  - `Get` walks the levels in a loop. `Set` stores a value or deletes an entry, creating missing levels on the way.
- **JsonSchema** (`jsonschema.dfy`) holds a small JSON value type. It also holds the subset of JSON Schema draft-07 validation that the schemas use:
  - `type`, with Ajv's `nullable`;
  - `properties`, `required`, `items`, `enum`, `const` and `anyOf`.
- **SignallingEvents** (`signalling.dfy`) holds the VoIP wire-event schemas. Each is written as a schema value, with a lemma stating field by field what it accepts.
  - Every schema's `anyOf` has a single branch. Under section 6.7.2 of JSON Schema Validation draft-07 that branch must hold, so each of these events validates only with `version` 1 and `party_id` present.
- **Config** (`config.dfy`) covers:
  - first-match user access rules;
  - the normalisation `loadConfig` does after schema validation;
  - the appservice registration;
  - the registration-token shape check;
  - the configuration schema itself.
- **Bridge** (`bridge.dfy`) covers:
  - bridge user IDs;
  - the `tel-` room suffix;
  - the module allow-list;
  - the control-room command line: tokenising, dispatch, the unknown-command fallback and the reply notice.
- **JsString** (`jsstring.dfy`) holds the JavaScript string built-ins the code relies on: `startsWith`, `endsWith`, `slice`, `split`, `join`, `trim`, and `replace` with a string pattern. `Wrappers` (`wrappers.dfy`) holds `Option` and `Result`.

Foreign calls become parameters:

- Regex matching is the parameter `matches`.
- Random tokens and the random call ID are arbitrary strings supplied by the caller.
- Handlers that talk to the homeserver are the parameter `run`.
- A value's JavaScript truthiness is the parameter `truthy`.

## Model

| member | source | states |
|---|---|---|
| Call.AssignmentRule | src/call.ts:40-56 | One assignment never lowers the state's rank. The state becomes the request exactly when the request ranks at least as high and the call is not HUNGUP, or the request is the current state. HUNGUP absorbs every request and emits nothing. An applied assignment emits `statechange(new, old)` first, then `ended` exactly when the new state is FAILED or HUNGUP. |
| Call.RunMonotone | src/call.ts:49-56 | Over any sequence of assignments the state never decreases. |
| Call.HungupIsFinal | src/call.ts:51-53 | From HUNGUP, every sequence of assignments leaves the state HUNGUP and emits nothing. |
| Call.TraceIsOrdered | src/call.ts:40-56 | In any trace, every `statechange` moves forward and never leaves HUNGUP, and every `ended` directly follows a `statechange` into FAILED or HUNGUP. |
| Call.NothingAfterHangup | src/call.ts:40-56 | After a `statechange` into HUNGUP, only its `ended` follows, and the final state is HUNGUP. |
| Call.PhoneCall.constructor | src/call.ts:21-29 | A new call starts in CREATED with `matrix_call_version` 0 and an empty event log. It keeps the given local, remote, from-matrix flag and call ID. These are `const` fields, so they never change. |
| Call.PhoneCall.SetState | src/call.ts:49-57 | The new state is `Next(old, requested)`. The log grows by exactly `Transition(old, requested)`. |
| Call.PhoneCall.EmitSendInvite | src/call.ts:31-33 | Logs `send_invite`, then applies the setter rule to INVITED. |
| Call.PhoneCall.EmitSendCandidates | src/call.ts:10 | Logs `send_candidates` and leaves the state alone. No listener of the call reacts to it. |
| Call.PhoneCall.EmitSendAccept | src/call.ts:34-36 | Logs `send_accept`, then applies the setter rule to ACCEPTED. |
| Call.PhoneCall.EmitSendHangup | src/call.ts:37-39 | Logs `send_hangup`, then applies the setter rule to HUNGUP. |
| Call.GuardsExact | src/call.ts:58-71 | `can_invite` holds iff CREATED. `can_answer` holds iff INVITED. `can_send_candidates` holds iff INVITED or ACCEPTED. `can_reject` holds iff CREATED or INVITED. In FAILED or HUNGUP no guard holds. |
| Util.Put | src/util.ts:52-69 | Setting a key in the nested maps keeps every path the same length as the key. |
| Util.PutFind | src/util.ts:52-69 | After a set, the key holds the new value, or nothing when the value is `undefined`. Every other key of the same length holds what it held before. |
| Util.FindLength | src/util.ts:42-51 | Only a key of the tuple's length finds a value. |
| Util.PutCreatesPath | src/util.ts:55-62 | A set leaves a nested map at every proper prefix of the key. |
| Util.PutKeepsPath | src/util.ts:55-64 | A set never removes a nested map, not even when it deletes. |
| Util.TupleLookup.constructor | src/util.ts:41 | A new lookup is empty. |
| Util.TupleLookup.Get | src/util.ts:42-51 | The loop returns the stored value when there is one and it is truthy. Otherwise it returns `undefined`, as soon as a level is missing. |
| Util.TupleLookup.Has | src/util.ts:70-72 | `has` is true iff `get` finds a truthy value. |
| Util.TupleLookup.Set | src/util.ts:52-69 | The contents change at the key alone: it is updated, or removed for `undefined`. Every proper prefix of the key then leads through nested maps, and no nested map that existed is removed. |
| Util.TupleLookup.Delete | src/util.ts:73-76 | The contents lose exactly the key. Deleting twice is deleting once. |
| SignallingEvents.VersionOneBranchAccepts | src/signalling_events.ts:19 | The one `anyOf` branch holds for a non-object, and for an object that has `party_id` and whose `version`, when present, is 1. |
| SignallingEvents.VersionZeroBranchAccepts | src/signalling_events.ts:19 | The intended version 0 branch holds unless the value is an object whose `version` is present and not 0. |
| SignallingEvents.EventAcceptsExactly | src/signalling_events.ts:10-20 | `IVoipEvent` accepts exactly objects with a string `call_id`, `version` equal to 1, and a `party_id` that is present and is a string or null. |
| SignallingEvents.DescriptionAccepts | src/signalling_events.ts:40-47 | The `offer` and `answer` objects need a string `sdp`, and a `type` that is exactly the one allowed string. |
| SignallingEvents.CandidateAccepts | src/signalling_events.ts:73-81 | A candidate needs a string `candidate`, a numeric `sdpMLineIndex` and a string `sdpMid`. |
| SignallingEvents.InviteAcceptsExactly | src/signalling_events.ts:32-51 | An invite is a valid event with a numeric `lifetime` and an `offer` whose `type` is `offer`. |
| SignallingEvents.CandidatesAcceptsExactly | src/signalling_events.ts:64-86 | A candidates event is a valid event whose `candidates` is an array of candidates. The empty array is accepted. |
| SignallingEvents.AnswerAcceptsExactly | src/signalling_events.ts:98-116 | An answer is a valid event with an `answer` whose `type` is `answer`. |
| SignallingEvents.HangupIsEvent | src/signalling_events.ts:123-127 | `IVoipHangup` accepts exactly what `IVoipEvent` accepts. |
| SignallingEvents.RejectAcceptsExactly | src/signalling_events.ts:137-146 | A reject, which has no `anyOf`, needs a string `call_id`, a string (never null) `party_id`, and `version` equal to 1. |
| SignallingEvents.OnlyVersionOne | src/signalling_events.ts:10-146 | Every event that is valid for any of the five schemas has a string `call_id`, `version` 1 and a `party_id`. |
| SignallingEvents.VersionZeroRejected | src/signalling_events.ts:19 | A version 0 hang-up without `party_id` is rejected. |
| SignallingEvents.IntendedEventAcceptsExactly | src/signalling_events.ts:13-19 | With the intended two-branch `anyOf`, an event must have `version` 0, or `version` 1 together with `party_id`. |
| SignallingEvents.IntendedAcceptsVersionZero | src/signalling_events.ts:19 | The intended rule accepts the version 0 hang-up. |
| Config.NullSectionsValidate | src/config.ts:75-102 | A null `logging` section and a null `permissions` section are both valid. |
| Config.GetUserAction | src/config.ts:134-141 | The loop returns the action of the first rule, in list order, whose regex matches. When no rule matches it returns FULL, including for an empty list. |
| Config.LoadConfig | src/config.ts:116-129 | A missing `httpserver` is a TypeError. A URL starting with neither `http://` nor `https://` is rejected. Otherwise the URL ends in `/`, and a URL that already did is unchanged. `permissions` defaults to `modules: []` and `user_rules: []`, supplied keys override the defaults, and a null `modules` is kept. `logging.level` defaults to INFO and a supplied level is kept. |
| Config.RegistrationUserRegex | src/config.ts:149-165 | The registration's sender localpart is the prefix. Aliases and rooms are empty and rate limiting is off. The tokens are those given. The one exclusive user regex is `@` + prefix + `.*`, with only the first dot of the prefix escaped. |
| Config.FirstDotOnlyLeavesWildcard | src/config.ts:150 | For prefix `a.b.c` the escape gives `a\.b.c`, which still holds an unescaped wildcard. |
| Config.EscapeDotsNoWildcard | src/config.ts:150 | Escaping every dot leaves no wildcard in a prefix without backslashes. |
| Config.EscapesAgreeOnOneDot | src/config.ts:150 | On a prefix with at most one dot, the escape as written equals escaping every dot. |
| Config.NoHttpServerValidates | src/config.ts:52-105 | A file with only `bridge` and `database` passes the configuration schema. |
| Config.IntendedConfigHasUrl | src/config.ts:104-116 | If `httpserver` is required, every valid file has the string `httpserver.publicBaseURL` that `loadConfig` reads. |
| Config.SchemasAgreeWithHttpServer | src/config.ts:104 | On files that have `httpserver`, the two schemas agree. |
| Config.LoadRegTokens | src/config.ts:172-182 | Succeeds iff the value is an object with string `as_token` and `hs_token`, and returns those two strings. |
| Config.NullEscapesGuard | src/config.ts:174-177 | A null document passes the `typeof` guard and fails on the property read instead. |
| Config.LoadRegTokensIntended | src/config.ts:174-180 | Accepts the same documents, and every rejection reports an invalid file. |
| Bridge.ListModules | src/bridge.ts:169-175 | With an empty allow-list the result is the whole module table. With a non-empty one it is the table's modules that the list allows, in table order. A null list throws. |
| Bridge.GetModule | src/bridge.ts:179-185 | The result is null when the allow-list is non-empty and leaves the name out. Otherwise it is the table lookup. A null list throws. |
| Bridge.ModulesAgree | src/bridge.ts:169-185 | `getModule` finds a module iff `listModules` lists it. |
| Bridge.ShippedModules | src/modules/index.ts:8-16 | With the shipped table and an empty allow-list, `twilio` is the one module listed and fetched, and any other name fetches nothing. An allow-list without `twilio` lists nothing and disables it. |
| Bridge.TelRoundTrip | src/bridge.ts:194-214 | The suffix starts with `tel-`. For a number starting with `+`, decoding the suffix gives the number back. Every `tel-` suffix is the suffix of the number it decodes to. |
| Bridge.GetBridgeUserId | src/bridge.ts:548-563 | The result is null unless the MXID starts with `@`. A returned ID holds no `:`. |
| Bridge.BridgeUserIdRoundTrip | src/bridge.ts:548-563 | For `@` + prefix + s + `:` + server, the result is s, for any s without `:`. The server part may itself hold `:`. |
| Bridge.BridgeUserIdOnlyFrom | src/bridge.ts:548-563 | An ID s is only returned for `@` + prefix + s + `:` + server. The one exception is an empty server name, which also matches an MXID with no `:`. |
| Bridge.Tokenise | src/bridge.ts:350 | Every token is non-empty and holds no space. Every non-empty trimmed part of the message is a token, as many times as it occurs, and the tokens keep the message order. |
| Bridge.TokeniseJoin | src/bridge.ts:350 | Words without whitespace, joined by single spaces, tokenise back into the same words. |
| Bridge.HelpRun | src/bridge.ts:227-238 | `help` pushes the command list, then the joined module list. When the allow-list is null it throws, and only the command list has been pushed. |
| Bridge.RunCommand | src/bridge.ts:352-364 | A known command runs its handler on the remaining tokens. An empty message or an unknown command first pushes `Unrecognized command: <name>` (the name is `undefined` for an empty message), then runs `help`. A handler that throws adds the internal-error reply. |
| Bridge.ProcessControlMessage | src/bridge.ts:348-369 | A notice is sent iff there are replies, and it holds them joined by newlines. An unknown command or `help` always gets a notice. |

## Left out

- Util.TupleLookup: the nested maps are immutable values under a `base` field that `Set` reassigns.
  - `Set` rebuilds the path to the key instead of updating the shared inner maps in place.
  - This changes nothing anyone can observe, because the inner maps never escape the object.
  - Keys are compared with Dafny equality, not JavaScript's SameValueZero.
- Util.TupleLookup.Get: truthiness of a stored value is the parameter `truthy`. Intermediate levels are always maps, and maps are truthy.
- Call: the events that external listeners react to are in the ghost log, but those listeners are not modelled (for example the Twilio module). `TypedEventEmitter` and its typing are not modelled. The default random `matrix_id` is a caller-supplied string.
- SignallingEvents: Ajv, and its configuration in `src/ajv.ts`, are not part of this model.
  - Validation is the `Validates` predicate, covering only the keywords these schemas use.
  - JSON numbers are integers, so `version`, `lifetime` and `sdpMLineIndex` are never fractional.
- Config.LoadConfig: reading and parsing the YAML file, and the Ajv check at lines 112-114, are not modelled.
  - The method takes an already valid configuration and returns the normalised one, instead of mutating the parsed object in place.
  - The `database` section is its `filename`.
- Config.GetUserAction: regex matching is the uninterpreted parameter `matches`, and it is total. `mxid.match(regex)` compiles the rule string, so an invalid pattern throws a SyntaxError out of `getUserAction`. The model never fails that way.
- Config.RegistrationUserRegex: the tokens from `Str.random(64)` are arbitrary strings given as parameters. Nothing states their length.
- Config.LoadRegTokens: file reading and YAML parsing are not modelled, and the input is the parsed JSON-like value. The source returns the whole parsed object; the model returns the two tokens.
- Bridge: the appservice handlers, the message preprocessor, the webhook listener, room lookup and naming, and `processTextMessage` are not modelled. They are asynchronous SDK and network calls.
- Bridge.RunCommand: the `status`, `link`, `unlink`, `dial` and `name` handlers call the homeserver and the database, so what each pushes and whether it throws is the parameter `run`. The debug and error logging is left out.
- Bridge.RunCommand and Bridge.GetModule: lookups in the `commands` and module-table objects are modelled on their own keys only. A name inherited from `Object.prototype` (such as `constructor`) is not modelled.
- Bridge.GetModule: a module is represented by its name. The module table of `src/modules/index.ts` is the `registry` parameter, and `ModuleTable` is its one entry, `twilio`.
- Bridge.TelRoundTrip: the decoded number's parsing and formatting by libphonenumber is not modelled.
- Bridge.GetTelSuffix and Bridge.GetBridgeUserId: a Dafny `string` is a sequence of characters, while JavaScript slices and measures UTF-16 code units. `number.slice(1)` and the slice at `prefix.length` therefore differ from the model when a character outside the Basic Multilingual Plane is involved, for example an astral first character.
- Bridge.GetModule: both kinds of missing module are `None`. The source returns `undefined` for a name that is not in the module table (src/modules/index.ts:12) and `null` for a name the allow-list excludes (src/bridge.ts:181-182). The model does not keep them apart.
- `src/database.ts`, the Twilio and Vonage modules, `src/phonenumber.ts`, `src/httpserver.ts`, `src/log.ts` and `src/index.ts` are not part of this model. They wrap SQLite, REST and websocket SDKs, libphonenumber, Express, logging and the command-line entry point.

## Findings

The members modelling the code keep its behaviour as written. Each corrected definition beside them states the intended rule and proves it.

| source | as written | input that shows it | evidently intended | confidence | as-written member | corrected member |
|---|---|---|---|---|---|---|
| src/signalling_events.ts:19 | A single-branch `anyOf` makes version 1 and `party_id` mandatory for every event | `{"call_id": "c", "version": 0}` is rejected by `IVoipEvent` and `IVoipHangup` | Version 0 events are accepted, and `party_id` is required only with version 1 | not executed; medium | SignallingEvents.VersionZeroRejected | SignallingEvents.IntendedEventAcceptsExactly |
| src/config.ts:150 | `replace` with a string pattern escapes only the first `.` of the prefix | Prefix `a.b.c` gives the user regex `@a\.b.c.*`, whose later dots match any character | Every dot of the prefix is escaped | not executed; high | Config.FirstDotOnlyLeavesWildcard | Config.EscapeDotsNoWildcard |
| src/config.ts:104 | `required` leaves out `httpserver`, which line 116 reads without a check | A file with only `bridge` and `database` passes validation, then fails with a TypeError at line 116 | `httpserver` is required, as the `IConfigData` interface at line 38 declares | not executed; high | Config.NoHttpServerValidates | Config.IntendedConfigHasUrl |
| src/config.ts:175 | The `typeof config !== 'object'` guard lets null through, because `typeof null` is `'object'` | A registration file that parses to null fails reading `as_token`, not with 'Invalid registration file' | Null is rejected as an invalid registration file | not executed; medium | Config.NullEscapesGuard | Config.LoadRegTokensIntended |
