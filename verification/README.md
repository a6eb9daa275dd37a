# Surfer waveform viewer integration — a Dafny model

The Surfer integration opens digital waveform dumps (`.vcd`, `.fst`, `.ghw`)
in an embedded viewer inside the workbench. This project models its core:

- **Waveform-file recognition** (`Surfer`, `SurferContribution`). It covers
  `isWaveformFile` and the editor resolver's `canSupportResource` test. It
  also covers the three editor registrations, one glob per extension.
- **The editor input** (`SurferEditorInput`). It covers the name, title and
  description of a waveform input, the two failures of `resolve`, and
  `matches`.
- **Configuration** (`SurferConfiguration`, `SurferService`). It covers the
  declared schema (nine settings with types, defaults, bounds and the theme
  enum), `getConfiguration` with its defaults, `updateConfiguration`, and the
  configuration-change filter.
- **The viewer session** (`SurferWebview`). One embedded viewer is a pure
  state machine: readiness, the file last asked for, and the `loadFile`
  calls waiting for the viewer to become ready. Each step returns the
  messages posted to the viewer and the notifications fired, in order.
- **The viewer registry** (`SurferService`). It covers viewer creation,
  the creation notification, and the service's `dispose`, which disposes
  every tracked viewer.

Strings are sequences of Unicode scalar values (Dafny's `char`). For text
inside the Basic Multilingual Plane this is the same as JavaScript's UTF-16
code units. The JavaScript string
operations the core relies on are written out in `JsString` with their edge
cases:

- `lastIndexOf` returns -1 when the character is absent.
- One-argument `substring` clamps its start.
- `split` always returns at least one part.
- `toLowerCase` maps ASCII capitals, and maps U+0130 to the two characters `i` and U+0307.

JavaScript numbers are modelled as reals. A URI is its `path` plus its
serialised form `text` (what `toString()` returns). Outside effects are
parameters:

- the file service's answer to `exists`;
- the value `getConfiguration` returns when a viewer builds its `configure`
  message;
- the configuration store, which is modelled as the stored `surfer` section.

Some behaviours of the code are easy to miss; the model keeps each of them:

- A repeated `surfer-loaded` signal posts `configure` again. The handler has
  no guard against a second signal
  (src/vs/workbench/contrib/surfer/browser/surferWebview.ts:180-184).
- Disposing a viewer drops the `loadFile` calls still waiting for readiness,
  with no output. Their readiness listeners go away with the session's
  emitters, and nothing rejects them
  (src/vs/workbench/contrib/surfer/browser/surferWebview.ts:220-228, 246-248).
- `loadFile` after `dispose` still records the file, because the assignment
  comes before any check. It posts nothing, since the disposed viewer no
  longer delivers messages
  (src/vs/workbench/contrib/surfer/browser/surferWebview.ts:217-218).
- A configuration change fires only the service's own change event. The
  viewer applies its configuration only on the readiness signal, so it does
  not re-send it on a change
  (src/vs/workbench/contrib/surfer/browser/surferService.ts:37-41,
  src/vs/workbench/contrib/surfer/browser/surferWebview.ts:180-184).
- The service reads the `surfer` section and writes flat keys
  `surfer.<field>`
  (src/vs/workbench/contrib/surfer/browser/surferService.ts:115, 136-137).
  The schema declares nested keys `surfer.<group>.<name>`, and names the
  theme setting `theme` where the configuration record calls it
  `defaultTheme`
  (src/vs/workbench/contrib/surfer/common/surferConfiguration.ts:22-80).
  The model keeps both key shapes as written and relates them through
  `DocumentedField`.

## Model

| member | source | states |
|---|---|---|
| Surfer.IsWaveformFile | src/vs/workbench/contrib/surfer/common/surfer.ts:92-98 | as written: a missing resource or an empty path is rejected, and a path without '.' is never a waveform file |
| Surfer.IsWaveformFileIffFinalExtension | src/vs/workbench/contrib/surfer/common/surfer.ts:96-97 | for paths without U+0130, a resource is a waveform file exactly when its lower-cased path ends with one of the three extensions, and exactly when its lower-cased final extension is one of them |
| Surfer.SuffixFromLastDot | src/vs/workbench/contrib/surfer/common/surfer.ts:89-97 | the text from the last '.' is one of the listed extensions iff the string ends with one of them, since each extension has its only '.' in front |
| Surfer.CaseOfAsciiLettersIrrelevant | src/vs/workbench/contrib/surfer/common/surfer.ts:96 | two paths that differ only in the case of ASCII letters are judged alike |
| Surfer.InnerExtensionRejected | src/vs/workbench/contrib/surfer/common/surfer.ts:96-97 | only the final extension counts: `a.vcd.txt` is rejected |
| Surfer.FinalExtensionAccepted | src/vs/workbench/contrib/surfer/common/surfer.ts:96-97 | `a.txt.vcd` is accepted |
| Surfer.UpperCaseExtensionAccepted | src/vs/workbench/contrib/surfer/common/surfer.ts:96-97 | `TRACE.VCD` is accepted, because the comparison is on the lower-cased text |
| Surfer.DottedCapitalIMisjudged | src/vs/workbench/contrib/surfer/common/surfer.ts:96 | the path `İ.vcd` is rejected as written but accepted by the corrected test |
| Surfer.IsWaveformFileCorrected | src/vs/workbench/contrib/surfer/common/surfer.ts:92-98 | corrected: accepted iff the resource is present and its lower-cased path ends with a waveform extension |
| Surfer.AsWrittenAgreesWithoutDottedCapitalI | src/vs/workbench/contrib/surfer/common/surfer.ts:96 | the as-written and corrected tests agree on every path without U+0130 |
| Surfer.ParseTheme | src/vs/workbench/contrib/surfer/common/surfer.ts:55 | the theme names `dark`, `light` and `auto` parse back to their themes, and nothing else parses |
| Surfer.FieldNamed | src/vs/workbench/contrib/surfer/common/surfer.ts:61-76 | the property name of each configuration field maps back to that field, and only those nine names map to a field |
| Surfer.ConfigDeterminedByFields | src/vs/workbench/contrib/surfer/common/surfer.ts:61-76 | a configuration is determined by the values of its nine fields |
| SurferConfiguration.NineDistinctGroupedKeys | src/vs/workbench/contrib/surfer/common/surferConfiguration.ts:21-86 | the schema has nine properties, each keyed `surfer.<group>.<name>` in one of three groups, with pairwise distinct keys |
| SurferConfiguration.KeyDeterminesGroupAndName | src/vs/workbench/contrib/surfer/common/surferConfiguration.ts:22-80 | a key determines its group and name when groups have no '.' |
| SurferConfiguration.EachFieldDocumentedOnce | src/vs/workbench/contrib/surfer/common/surferConfiguration.ts:21-86 | each schema property documents a distinct configuration field, and every field is documented (`theme` documents `defaultTheme`) |
| SurferConfiguration.EntryOf | src/vs/workbench/contrib/surfer/common/surferConfiguration.ts:21-86 | the schema property that documents each field |
| SurferConfiguration.SchemaDefault | src/vs/workbench/contrib/surfer/common/surferConfiguration.ts:21-86 | the default the schema declares for the property documenting each field, which has the field's type |
| SurferConfiguration.DefaultsWithinDeclaredBounds | src/vs/workbench/contrib/surfer/common/surferConfiguration.ts:22-61 | each default has the declared type and lies within the declared minimum, maximum and enum. File size is 100 MiB within [1 MiB, 1 GiB]; the theme enum is dark, light, auto |
| SurferConfiguration.BooleanDefaultsTrue | src/vs/workbench/contrib/surfer/common/surferConfiguration.ts:30-85 | the six settings other than file size, theme and zoom are booleans, and all default to true |
| SurferService.GetConfiguration | src/vs/workbench/contrib/surfer/browser/surferService.ts:114-129 | each field is its stored value when one is present (even false or 0), and otherwise the default the schema declares for it; a missing section reads as empty |
| SurferService.AbsentSectionGivesDefaults | src/vs/workbench/contrib/surfer/browser/surferService.ts:115-127 | with nothing stored, the configuration is 100 MiB, true, true, auto, 1.0, true, true, true, true |
| SurferService.SchemaDefaultsAreFallbacks | src/vs/workbench/contrib/surfer/browser/surferService.ts:119-127 | every schema default equals the fallback `getConfiguration` uses for the field it documents |
| SurferService.StoringOneFieldChangesOnlyIt | src/vs/workbench/contrib/surfer/browser/surferService.ts:119-127 | storing one field changes that field of the configuration and no other |
| SurferService.GetConfigurationIdempotent | src/vs/workbench/contrib/surfer/browser/surferService.ts:114-129 | storing a configuration and reading it back gives it unchanged |
| SurferService.UpdateConfiguration | src/vs/workbench/contrib/surfer/browser/surferService.ts:131-139 | one update per supplied entry, in order, including entries explicitly `undefined`, whose flat key `surfer.<name>` names the entry's field and whose value is the entry's value |
| SurferService.KeyOf | src/vs/workbench/contrib/surfer/browser/surferService.ts:136 | the flat key a field is written under reads back as that field |
| SurferService.UpdatesAreStored | src/vs/workbench/contrib/surfer/browser/surferService.ts:135-138 | applying those updates stores each supplied value under its field, removes each field supplied as `undefined`, and leaves every other stored field as it was |
| SurferService.UpdatesAreReadBack | src/vs/workbench/contrib/surfer/browser/surferService.ts:114-138 | after an update, `getConfiguration` returns the supplied value for each supplied field (its schema default when supplied as `undefined`), and the earlier values for all others |
| SurferService.ConfigurationChanged | src/vs/workbench/contrib/surfer/browser/surferService.ts:37-41 | the change event fires once iff the service is live and some changed key is `surfer` or lies beneath it |
| SurferService.FieldKeysUnderSection | src/vs/workbench/contrib/surfer/browser/surferService.ts:131-139 | every flat key that names a configuration field lies beneath the `surfer` section |
| SurferService.UpdatesFireChange | src/vs/workbench/contrib/surfer/browser/surferService.ts:37-41 | every key `updateConfiguration` writes lies beneath `surfer`, so each non-empty change event over those keys makes a live service fire its change event exactly once, and a disposed one fire nothing, however the store groups the writes |
| SurferService.SectionFilterExamples | src/vs/workbench/contrib/surfer/browser/surferService.ts:38 | `surferX.a` is not beneath `surfer`, `surfer.display.theme` is, and an empty change affects nothing |
| SurferService.CreateWaveformViewer | src/vs/workbench/contrib/surfer/browser/surferService.ts:59-72 | a fresh viewer joins the registry at the end, with `{}` for omitted options; the creation event fires with it once while the service is live |
| SurferService.DisposeService | src/vs/workbench/contrib/surfer/browser/surferService.ts:175-181 | every tracked viewer is disposed, in creation order, and the registry is left empty |
| SurferService.ViewersOnlyGrowUntilDispose | src/vs/workbench/contrib/surfer/browser/surferService.ts:21 | without `dispose`, tracked viewers stay tracked in place, and the registry grows by one per creation |
| SurferService.HostCreate | src/vs/workbench/contrib/surfer/browser/surferService.ts:59-72 | creating a viewer starts a new session with the given options, or `{}`, under a fresh identity |
| SurferService.DisposeSessionsEffect | src/vs/workbench/contrib/surfer/browser/surferService.ts:176-178 | disposing a list of sessions disposes exactly the listed ones, dropping their waiting calls, and leaves the rest unchanged |
| SurferService.HostDispose | src/vs/workbench/contrib/surfer/browser/surferService.ts:175-181 | the service's dispose disposes every tracked session, dropping its waiting calls, leaves untracked sessions alone, and empties the registry |
| SurferWebview.NewSession | src/vs/workbench/contrib/surfer/browser/surferWebview.ts:16-17 | a new viewer is not loaded, has no current file and no waiting calls |
| SurferWebview.EffectiveViewerConfig | src/vs/workbench/contrib/surfer/browser/surferWebview.ts:209-213 | each viewer field is the option's value when the option is defined, and otherwise the service's value; the theme falls back to the service's default theme |
| SurferWebview.EmptyOptionsFollowService | src/vs/workbench/contrib/surfer/browser/surferWebview.ts:207-214 | with no options, the viewer is configured with the service's zoom, minimap and default theme |
| SurferWebview.OverridesArePerField | src/vs/workbench/contrib/surfer/browser/surferWebview.ts:210-212 | a defined option's value is the field's value whatever the service reports, and an undefined option leaves that field tracking the service value |
| SurferWebview.ApplySurferConfiguration | src/vs/workbench/contrib/surfer/browser/surferWebview.ts:199-215 | exactly one `configure` message when the viewer is loaded, and none otherwise |
| SurferWebview.Step | src/vs/workbench/contrib/surfer/browser/surferWebview.ts:174-236 | each step keeps the options, re-emits every live incoming message first, records a `loadFile` resource at once, posts only to a loaded live viewer, posts and fires nothing once disposed, and keeps the session invariant |
| SurferWebview.ReadySignalConfiguresThenFlushes | src/vs/workbench/contrib/surfer/browser/surferWebview.ts:180-184 | readiness posts one message tagged `configure`, then one tagged `loadFile` per waiting call in call order, and empties the queue, every time the signal arrives |
| SurferWebview.LoadFileDependsOnReadiness | src/vs/workbench/contrib/surfer/browser/surferWebview.ts:217-236 | a loaded viewer gets the file at once; an unloaded one queues the call |
| SurferWebview.FileLoadedReportsCurrentFile | src/vs/workbench/contrib/surfer/browser/surferWebview.ts:190-194 | `file-loaded` reports the file last asked for, or nothing when there is none |
| SurferWebview.SelectionForwarded | src/vs/workbench/contrib/surfer/browser/surferWebview.ts:186-188 | a selection is forwarded with its data, with no other effect |
| SurferWebview.UnknownCommandIgnored | src/vs/workbench/contrib/surfer/browser/surferWebview.ts:176-179 | a message with another command is re-emitted and has no other effect |
| SurferWebview.DisposeDropsWaitersAndIsIdempotent | src/vs/workbench/contrib/surfer/browser/surferWebview.ts:246-248 | dispose drops waiting calls without output, and a second dispose changes nothing |
| SurferWebview.RunKeepsInvariant | src/vs/workbench/contrib/surfer/browser/surferWebview.ts:220-228 | calls wait only while the viewer is unloaded and live, in every reachable state |
| SurferWebview.LoadsPostedInCallOrder | src/vs/workbench/contrib/surfer/browser/surferWebview.ts:217-236 | the files posted so far, followed by the waiting ones, are exactly the files asked for, in call order, while the viewer is live, and a prefix of them after dispose |
| SurferWebview.NothingPostedBeforeReady | src/vs/workbench/contrib/surfer/browser/surferWebview.ts:200-202 | until the readiness signal arrives, nothing is posted and the viewer stays unloaded |
| SurferWebview.CurrentFileIsLastRequest | src/vs/workbench/contrib/surfer/browser/surferWebview.ts:218 | the recorded file is always the one from the most recent `loadFile` call |
| SurferWebview.SelectionsCarrySelectionData | src/vs/workbench/contrib/surfer/browser/surferWebview.ts:186-188 | when the viewer's messages have the shapes their interfaces declare (src/vs/workbench/contrib/surfer/common/surfer.ts:106-125), every selection notification carries a signal name and a time position |
| SurferWebview.PostedFilesOfLoadMessages | src/vs/workbench/contrib/surfer/browser/surferWebview.ts:232-235 | the waiting calls post their own files, in order |
| SurferEditorInput.GetName | src/vs/workbench/contrib/surfer/browser/surferEditorInput.ts:30-32 | the name is the text after the last '/' of the path, or `waveform` when that is empty; it is never empty and has no '/' |
| SurferEditorInput.NameIsLastSegment | src/vs/workbench/contrib/surfer/browser/surferEditorInput.ts:31 | the name of `dir/name` is `name` for any non-empty segment |
| SurferEditorInput.DirectoryPathGetsFallbackName | src/vs/workbench/contrib/surfer/browser/surferEditorInput.ts:31 | a path ending in '/' is named `waveform` |
| SurferEditorInput.GetDescription | src/vs/workbench/contrib/surfer/browser/surferEditorInput.ts:34-36 | the description is the full path |
| SurferEditorInput.GetTitle | src/vs/workbench/contrib/surfer/browser/surferEditorInput.ts:38-40 | the title is the name |
| SurferEditorInput.Resolve | src/vs/workbench/contrib/surfer/browser/surferEditorInput.ts:42-54 | resolves iff the file exists and `isWaveformFile`, as written, accepts it; a missing file is reported first, then an invalid one |
| SurferEditorInput.ResolveWithoutDottedCapitalI | src/vs/workbench/contrib/surfer/browser/surferEditorInput.ts:42-54 | for paths without U+0130, an existing resource resolves iff its lower-cased path ends with a waveform extension |
| SurferEditorInput.ResolveRejectsDottedCapitalI | src/vs/workbench/contrib/surfer/browser/surferEditorInput.ts:49-51 | an existing resource with path `İ.vcd` fails as an invalid waveform file, where the corrected resolve accepts it |
| SurferEditorInput.ResolveCorrected | src/vs/workbench/contrib/surfer/browser/surferEditorInput.ts:42-54 | corrected: an existing resource resolves iff its lower-cased path ends with a waveform extension, with the same error order |
| SurferEditorInput.ErrorMessagesDistinguishCauses | src/vs/workbench/contrib/surfer/browser/surferEditorInput.ts:46-50 | the two failure messages differ, and each ends with the resource |
| SurferEditorInput.Matches | src/vs/workbench/contrib/surfer/browser/surferEditorInput.ts:56-62 | an input matches only a waveform input whose resource has the same serialised form |
| SurferEditorInput.MatchesIsEquivalence | src/vs/workbench/contrib/surfer/browser/surferEditorInput.ts:61 | among waveform inputs, matching is reflexive, symmetric and transitive |
| SurferContribution.SomeEndsWith | src/vs/workbench/contrib/surfer/browser/surfer.contribution.ts:70 | true iff the string ends with one of the given suffixes |
| SurferContribution.CanSupportResource | src/vs/workbench/contrib/surfer/browser/surfer.contribution.ts:68-71 | the resolver accepts a resource exactly when the corrected waveform-file test does |
| SurferContribution.CanSupportAgreesWithIsWaveformFile | src/vs/workbench/contrib/surfer/browser/surfer.contribution.ts:68-71 | the resolver test and `isWaveformFile` as written agree on paths without U+0130, and disagree on `İ.vcd` |
| SurferContribution.RegisterWaveformEditors | src/vs/workbench/contrib/surfer/browser/surfer.contribution.ts:57-62 | one registration per extension, in order, with glob `*<ext>`, for the waveform editor |
| SurferContribution.ThreeRegistrations | src/vs/workbench/contrib/surfer/browser/surfer.contribution.ts:57-62 | the registrations are `*.vcd`, `*.fst` and `*.ghw`, all for the editor that waveform inputs name as theirs |
| SurferContribution.GlobSuffixSupported | src/vs/workbench/contrib/surfer/browser/surfer.contribution.ts:57-71 | every path ending in a registered extension passes the resource test |
| JsString.SplitJoinRoundTrip | src/vs/workbench/contrib/surfer/browser/surferEditorInput.ts:31 | `split` loses nothing: its parts joined with the separator give back the string |
| JsString.LastPartAfterLastSeparator | src/vs/workbench/contrib/surfer/browser/surferEditorInput.ts:31 | the last part of `split` is the text after the last separator |

## Left out

- HTML generation, the content security policy, webview creation and
  hosting, and `focus` are not modelled. They are presentation and host
  plumbing.
- `openWaveformFile`, `preloadWasm`, `parseFileInBackground` and the WASM
  and integration URIs are not modelled. They only log, wait or return fixed
  mock data, and URI joining belongs to the platform.
- The editor pane, the service singleton, the configuration-node
  registration and the contribution's `initialize` are not modelled. They
  are registration mechanics of the workbench.
- Glob matching in the editor resolver is not modelled. Only the globs'
  text and the `canSupportResource` test are.
- Promise settlement is not modelled. A waiting `loadFile` that is dropped
  on dispose simply never posts, and its promise never settles.
- The boolean result of `postMessage` is not modelled.
- `toLowerCase` is modelled for ASCII and U+0130 only. Other non-ASCII
  letters are kept as they are.
- A character outside the Basic Multilingual Plane is one element of a
  string here, where JavaScript counts it as two code units. The indices
  `JsString` computes past such a character are therefore one less per
  character than JavaScript's. The recognition test, the resolver test and
  the name are not affected, since they compare texts and not indices. A
  lone surrogate cannot be represented at all.
- `URI.toString()` is not modelled. A URI's serialised form is a given
  string.
- The stored `surfer` section holds only values of the declared types. An
  arbitrary theme string or a non-object section is outside the model. A
  stored property that is `undefined` reads like a missing one.
- The configuration store's scopes, targets and persistence are not
  modelled. `updateValue` is modelled as setting the named flat property of
  the section, or removing it when the value is `undefined`. An update whose key names no field, or whose value has
  another type, is outside that model and leaves the section unchanged.
- SurferService.UpdatesAreReadBack: the round trip assumes that the write
  of a flat `surfer.<field>` key succeeds and has completed before the
  next read. The schema registers only the nested
  `surfer.<group>.<name>` keys, and `updateValue` is not awaited, so a
  store that validates keys against the registered schema, or a read that
  comes before the write settles, is outside the model. The round trip is a
  property of the modelled store.
- SurferService.UpdatesAreStored: rests on the same assumption about the
  store as UpdatesAreReadBack.
- SurferService.UpdatesFireChange: states only what the service's filter
  does with each change event it receives. How many events the store
  raises for the writes of one call is up to the store. It may raise one
  per write, one for all of them, or none for keys it refuses. So the model
  does not promise a number of events per call.
- SurferService.ViewersOnlyGrowUntilDispose: states the growth of the
  registry for runs without `dispose`. After `dispose`, the service keeps
  tracking viewers created later, which the single-step contract of
  CreateWaveformViewer states.
- Surfer.IsWaveformFile: its own contract states only the rejections
  (missing resource, empty path, no '.'). The full characterisation holds
  for paths without U+0130 (IsWaveformFileIffFinalExtension); for the other
  paths see the finding below.
- Logging through the log service is not modelled.

## Findings

| source | as written | input that shows it | evidently intended | confidence | as-written member | corrected member |
|---|---|---|---|---|---|---|
| src/vs/workbench/contrib/surfer/common/surfer.ts:96 | the position of the last '.' is taken in the original path but applied to the lower-cased path, which is one unit longer per U+0130 | a resource with path `İ.vcd`: its lower case is `i̇.vcd`, the cut starts at index 1 and gives `̇.vcd`, which is not a waveform extension, while `canSupportResource` accepts the same resource | compare the lower-cased final extension, taking the position in the lower-cased path | not executed | Surfer.DottedCapitalIMisjudged | Surfer.IsWaveformFileCorrected |

`Resolve` models `resolve` as written, so an existing `İ.vcd` fails to
resolve (SurferEditorInput.ResolveRejectsDottedCapitalI) although the editor
resolver's `canSupportResource` accepts it. `CanSupportResource` is exactly
the corrected test, and `ResolveCorrected` is `resolve` with the corrected
test.
