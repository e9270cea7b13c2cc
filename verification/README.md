# Route-title resolution, modelled in Dafny

This project models the route-title logic of an Angular course application.
That logic exists in two revisions, plus a small string formatter:

- `AppComponent.ngOnInit` holds the first revision. On every completed
  navigation it walks the active route chain, collects the `data['title']`
  value of every titled segment below `activatedRoute.firstChild`, and
  publishes `titles.join(': ')`.
- `TitleService` holds the later, resolver-aware revision. A titled segment
  contributes one `{label, resolved}` entry per usable resolver binding
  (`{resolver, itemKey}`), followed by its own title object. The subscriber
  publishes the joined `label`s, but only when the list is non-empty, and
  remembers the list in `routeTitles`. `setTitle(x)` republishes those
  labels and never reads `x`.
- `TitleService.template` is a tagged-template helper. It interleaves
  literal fragments with values picked by integer (positional) or string
  (dictionary) keys.

Both revisions keep one slot of state across navigations: `result`. A
navigation replaces it only when the deepest segment has title data;
otherwise the previous value is kept, even when segments higher up are
titled.

Layout:

- `js_values.dfy` defines `JsValues`, the JavaScript value semantics the code
  relies on: truthiness, property reads, `String(v)`, and `Array.join`, which
  renders `undefined` as `""`. It also defines `Optional`.
- `route_chain.dfy` defines `RouteChain`: the active chain as a sequence of
  segments, each with its `snapshot.data` map. Element 0 is
  `activatedRoute.firstChild`.
- `app_component.dfy` defines `AppComponent`, the first revision.
- `title_service.dfy` defines `TitleService`, the resolver-aware revision,
  its session state, `setTitle`, and the initial-title finding.
- `title_template.dfy` defines `TitleTemplate`, the formatter.
- `course_routes.dfy` defines `CourseRoutes`: the title data declared in the
  courses routing module, as concrete chains with the titles computed for
  them.

Each revision's `map` closure is modelled twice. A method transcribes the
`while (child.firstChild)` loop. A recursive fold (`Collect`/`AppCollect`)
serves as its reference definition, and the method is proved equal to it.
The formatter is handled the same way: `Format` transcribes the
push-then-`join('')` loop and is proved equal to `Expand`.

Behaviour worth knowing before reading the contracts:

- Within one segment, resolver entries are pushed before the segment's own
  title object (`title.service.ts:27-36`).
- `setTitle` ignores its argument. It republishes the labels remembered in
  `routeTitles` (`title.service.ts:67-69`).

## Model

| member | source | states |
|---|---|---|
| `JsValues.JoinStringsAppend` | src/app/services/title.service.ts:49 | joining two non-empty runs with a separator is joining each run and putting exactly one separator between them |
| `JsValues.JoinConcat` | src/app/services/title.service.ts:63 | `join('')` distributes over array concatenation, empty arrays included |
| `JsValues.NatToStringRoundTrip` | src/app/services/title.service.ts:82 | the decimal text `join` produces for a number (`30` becomes `"30"`) reads back as that number |
| `AppComponent.AppCollect` | src/app/app.component.ts:38-43 | the loop keeps at most one value per visited segment, and every kept value is a truthy title |
| `AppComponent.AppCollectAppend` | src/app/app.component.ts:38-43 | visiting segments in sequence collects their titles in the same order: the collection over `a + b` is the collection over `a` followed by that over `b` |
| `AppComponent.AppCollectCountsTitled` | src/app/app.component.ts:38-43 | the number of collected titles equals the number of positions holding a titled segment (an independent set-cardinality definition) |
| `AppComponent.AppResolve` | src/app/app.component.ts:44-47 | if the deepest segment has no title, the previous `result` comes back unchanged. Otherwise the fresh collection over the segments below the first element replaces it, and every entry is a truthy title |
| `AppComponent.AppTitledDeepestDiscardsPrevious` | src/app/app.component.ts:44-51 | with a titled deepest segment, the new `result` and the published title are the same whatever the previous `result` was |
| `AppComponent.AppMapPass` | src/app/app.component.ts:35-48 | the `while (child.firstChild)` loop, started at `firstChild`, computes exactly the reference fold over the segments after the first |
| `AppComponent.AppInitial` | src/app/app.component.ts:31 | `result` starts as one entry, the document title itself, so joining it republishes the document title; that entry is truthy exactly when the title is non-empty |
| `AppComponent.AppNavigate` | src/app/app.component.ts:31-51 | every navigation publishes, unconditionally, the retained titles joined with `": "` |
| `AppComponent.AppFirstSegmentNeverContributes` | src/app/app.component.ts:36-39 | once the chain has a second element, replacing the first element changes neither the result nor the published title |
| `AppComponent.AppTitleCountMatchesTitledSegments` | src/app/app.component.ts:38-46 | with a titled deepest segment, the entry count equals the number of titled segments below the first chain element |
| `AppComponent.AppPublishedEndsWithDeepestTitle` | src/app/app.component.ts:38-51 | with a titled deepest segment below the first element, its title is the last entry and the published text ends with it, after `": "` when earlier titles exist |
| `AppComponent.AppLoneTitledSegmentPublishesEmpty` | src/app/app.component.ts:36-51 | a one-element chain whose element is titled collects nothing: `result` becomes empty and `""` is published |
| `AppComponent.AppUntitledFirstNavigationKeepsDocumentTitle` | src/app/app.component.ts:31-51 | starting from `[document title]`, a navigation to an untitled deepest segment republishes the document title |
| `TitleService.ResolvedEntry` | src/app/services/title.service.ts:29-32 | a usable binding yields an object whose `label` is `data[resolver][itemKey]` and whose `resolved` is `data[resolver]` |
| `TitleService.ResolverEntries` | src/app/services/title.service.ts:26-35 | `forEach` over the bindings yields at most one entry per binding, and each entry is an object |
| `TitleService.ResolverEntriesSnoc` | src/app/services/title.service.ts:27-34 | entries follow declared binding order, and a binding adds an entry exactly when both `resolver` and `itemKey` are truthy |
| `TitleService.SegmentEntries` | src/app/services/title.service.ts:24-37 | a segment contributes something exactly when it is titled; its own title object comes last, and everything before it is that segment's resolver entries |
| `TitleService.Collect` | src/app/services/title.service.ts:22-38 | every collected entry is defined, so reading its `label` cannot throw, and the service never collects fewer entries than the first revision does |
| `TitleService.CollectAppend` | src/app/services/title.service.ts:22-38 | visiting segments in sequence concatenates their contributions in visit order |
| `TitleService.CollectMatchesFirstRevision` | src/app/services/title.service.ts:24-37 | when no segment has a usable binding, the service collects exactly what the first revision collects |
| `TitleService.ResolvePass` | src/app/services/title.service.ts:19-43 | stale retention depends only on the deepest segment. If it is untitled, the previous result is returned. If it is titled, the fresh collection over the segments below the first element replaces the previous result: that collection ends with the deepest title when the deepest segment is below the first element, and is empty for a one-element chain. Defined previous entries stay defined |
| `TitleService.TitledDeepestDiscardsPrevious` | src/app/services/title.service.ts:39-43 | with a titled deepest segment, the pass gives the same result whatever the previous result was |
| `TitleService.MapPass` | src/app/services/title.service.ts:19-43 | the `while` loop transcription computes exactly the resolution pass |
| `TitleService.FirstSegmentNeverContributes` | src/app/services/title.service.ts:20-24 | `activatedRoute.firstChild` is never inspected for entries: replacing it leaves the pass unchanged once a second element exists |
| `TitleService.Navigate` | src/app/services/title.service.ts:44-51 | a non-empty result becomes `routeTitles` and its joined labels are published; an empty result publishes nothing and leaves `routeTitles` as it was |
| `TitleService.SetTitle` | src/app/services/title.service.ts:67-69 | publishes the joined labels of `routeTitles`: a single remembered entry publishes exactly its label. That it never reads its argument and republishes the last navigation's title is stated by `SetTitleIgnoresArgument` and `SetTitleRepublishesLastNavigation` |
| `TitleService.SetTitleIgnoresArgument` | src/app/services/title.service.ts:67-69 | `setTitle(x)` and `setTitle(y)` publish the same string for every `x`, `y` |
| `TitleService.SetTitleRepublishesLastNavigation` | src/app/services/title.service.ts:67-69 | after a navigation that published a title, `setTitle(anything)` publishes that same title again |
| `TitleService.SingleEntryPublishesItsLabel` | src/app/services/title.service.ts:49 | a one-entry list publishes exactly that entry's label, with no separator |
| `TitleService.JoinLabelsSnoc` | src/app/services/title.service.ts:49 | adding an entry appends `": "` and its label to what was published before |
| `TitleService.UntitledDeepestKeepsPrevious` | src/app/services/title.service.ts:39-51 | with an untitled deepest segment, the previous result is kept and, if non-empty, republished; if it is empty, nothing changes at all |
| `TitleService.TitledDeepestPublishesItsLabelLast` | src/app/services/title.service.ts:36-49 | with a titled deepest segment below the first element, something is published, and it ends with that segment's own label |
| `TitleService.LoneTitledSegmentPublishesNothing` | src/app/services/title.service.ts:20-46 | a one-element titled chain empties `result`, publishes nothing and keeps `routeTitles` |
| `TitleService.InitialSession` | src/app/services/title.service.ts:15 | as written, `result` starts as one entry, a bare string that renders as the document title but whose `label` reads as `undefined`; `routeTitles` is unset |
| `TitleService.InitialTitleBlankedByUntitledNavigation` | src/app/services/title.service.ts:15-49 | as written, a first navigation to an untitled deepest segment publishes `""`, because `result` starts as a bare string with no `label` |
| `TitleService.InitialSessionLabelled` | src/app/services/title.service.ts:15 | the corrected initial state holds one entry whose `label` is the document title |
| `TitleService.InitialTitleKeptByUntitledNavigation` | src/app/services/title.service.ts:15-49 | from the corrected initial state, a first navigation to an untitled deepest segment republishes the document title |
| `TitleTemplate.Dict` | src/app/services/title.service.ts:57 | the dictionary is the last argument when that is truthy, and an empty object otherwise |
| `TitleTemplate.Format` | src/app/services/title.service.ts:55-65 | the push-then-`join('')` closure yields the first fragment, then for each key its looked-up value and the next fragment |
| `TitleTemplate.NamedKeysIgnoreLeadingArgument` | src/app/services/title.service.ts:80-83 | a template with only string keys reads only the last argument, so a leading positional argument changes nothing |
| `TitleTemplate.IndexKeysReadPositions` | src/app/services/title.service.ts:60 | a template with only integer keys depends only on the positional arguments those keys name: two argument lists of any lengths that agree there (reading `undefined` past the end) give the same string |
| `TitleTemplate.TrailingArgumentIgnoredExample` | src/app/services/title.service.ts:72-74 | ``template`${0}${1}${0}!` `` gives the same string for `'Y', 'A'` and for `'Y', 'A'` followed by any extra argument |
| `TitleTemplate.RepeatedPositionsExample` | src/app/services/title.service.ts:72-74 | ``template`${0}${1}${0}!` `` applied to `'Y', 'A'` gives `"YAY!"` |
| `TitleTemplate.MixedKeysExample` | src/app/services/title.service.ts:76-78 | ``template`${0} ${'foo'}!` `` applied to `'Hello', {foo: 'World'}` gives `"Hello World!"` |
| `TitleTemplate.NamedKeysExample` | src/app/services/title.service.ts:80-83 | the `name`/`age` template gives `"I'm MDN. I'm almost 30 years old."`, with or without the leading `'foo'` |
| `CourseRoutes.LessonDetailTitle` | src/app/courses/courses-routing.module.ts:43-67 | for course, then lesson detail, the published title is course description, `Course`, lesson description, `Lesson Detail Component`, in that order |
| `CourseRoutes.LessonsListTitle` | src/app/courses/courses-routing.module.ts:31-68 | for course, then lessons list, the published title is course description, `Course`, `Lessons List Component`; the unbound `lessons` result adds nothing |
| `CourseRoutes.HomeTitle` | src/app/courses/courses-routing.module.ts:15-23 | the home route publishes `Home Component` |
| `CourseRoutes.FirstRevisionRendersTitleObjects` | src/app/app.component.ts:49-51 | given these object-shaped titles, the first revision publishes `"[object Object]: [object Object]"` |

## Left out

- RxJS: `router.events`, the `NavigationEnd` filter and the subscription. Each completed navigation is one call of `Navigate` / `AppNavigate` on the previous state and the current chain.
- Angular dependency injection, the decorators, and the `Title` service. The published title is an `Option<string>` output of `Navigate`, and a plain string for `AppNavigate` and `SetTitle`. The document title that `getTitle()` reads at start-up is a parameter.
- Runtime exceptions are preconditions, not modelled behaviour. These are: a null `firstChild` (chains are non-empty); a truthy `resolvers` that is not an array; an `undefined` binding; a missing `data[resolver]` bucket for a usable binding (all in `ChainReady`); and `routeTitles` still unset when `setTitle` runs.
- JsValues.Render: numbers are unbounded integers, always rendered in plain decimal. JavaScript renders integers of `1e21` and above in exponent form (`String(1e21)` is `"1e+21"`), and it cannot represent every integer above 2^53. The application's route data holds no such numbers.
- JavaScript values: `null`, booleans, `NaN` and non-integer numbers are not modelled. Reading a property of a string, number or array gives `undefined` here. Inherited prototype members, `length` and string indices also read as `undefined`.
- TitleTemplate.Format: the returned closure is modelled uncurried, as one call on (fragments, keys, arguments). A key is either an integer or a string; `Number.isInteger` on other key types is not modelled.
- The commented-out template experiment in the subscriber is not modelled. It has no effect.
- `title.directive.ts` only calls `setTitle(label)`, and `SetTitleIgnoresArgument` covers that. The lesson-detail and course components contain only observable plumbing, navigation calls and a confirmation dialog. Neither is modelled.
- `routeTitles` is a public field, but writes to it from outside the service are not modelled.

## Findings

| source | as written | input that shows it | evidently intended | confidence | as-written member | corrected member |
|---|---|---|---|---|---|---|
| src/app/services/title.service.ts:15 | `result` starts as `[this.title.getTitle()]`, a bare string. The subscriber reads `.label` of each entry, which is `undefined` for a string, and `join` renders that as `""`. | document title `"Courses"`; first navigation to a chain whose deepest segment has no `title` data. The pass returns the initial `result`, and `""` is published, blanking the title. | keep the document title, as the first revision does (its `join` of plain strings republishes it): start from one entry whose `label` is the document title | medium; not executed | `TitleService.InitialTitleBlankedByUntitledNavigation` | `TitleService.InitialTitleKeptByUntitledNavigation` |
