# EnshittificationMetrics enrichment core, modelled in Dafny

This project models two parts of the EnshittificationMetrics back end.

**`backend/populate_blanks.py`** fills blank entity fields from a language model's free-text reply:
- **Extraction.** Cut the reply from its first `{` to its last `}` and parse it as JSON. The timeline path also escapes every line break first, and skips the cut when the reply already looks like `{"timeline": "..."}`.
- **History rendering.** `stage_history` is rendered into the flat text the timeline prompt carries.
- **Reconciliation.** The recovered values are merged into the entity rows by two batch passes (`parse_for_blank_summary`, `parse_for_blank_timeline`) and by the single-entity path (`create_timeline_for_entity`). Each applies its own skip rules and overwrite or fill-if-empty policy.

**`backend/utilities/copy_github_to_local.py`** decides, in `place_files`, for each directory of the clone:
- which deployment tree it goes to;
- which target directory it maps to;
- which files are copied;
- how the counter of copied files moves;
- which post-copy hook each copied file triggers (`pipenv install`, then the `check_for_restart_needed` dispatch).

Modules:
- `Wrappers`: `Option`.
- `PyStr`: the Python string built-ins with Python's semantics. These are truthiness, `find`, `rfind`, `replace("\n", "\\n")`, `split("/")`, `in` and `os.path.join`.
- `Json`: the flat-object part of `json.loads` (RFC 8259). It has a parser, and a renderer that is the parser's partner.
- `ResponseExtraction`: brace slicing, the fast-path shape, newline sanitising, and the field reads.
- `StageHistory`: the rendering loop and the fold that specifies it.
- `Reconcile`: the per-entity steps as functions on an `EntityRecord` value, and the batch pass as a function over all rows.
- `PopulateBlanks`: `class Entity`, whose methods assign the row's fields in place, and the three entry points as methods over `seq<Entity>`. Each method is proved against the `Reconcile` functions.
- `CopyGithubToLocal`: `place_files` as nested loops over input records. It returns the number of files copied and the log of actions taken.

The language model, the search services and the file system are not part of the model. The batch methods therefore take, for each entity, what the content function returned (`got`), with `None` when it raised. `Reconcile.SummaryReply` and `Reconcile.TimelineReply` tie `got` to the reply: text that came back, an HTTP status error, or any other error.

Three behaviours of the code are easy to miss:
- **Aborts.** The batch passes' docstrings (`populate_blanks.py:300-303`, `329-332`) describe a failed entity as logged and skipped. That holds for a reply from which nothing can be read. It does not hold for a model call that raises something other than an HTTP status error: that leaves `content` unbound, and the next line raises out of the whole pass. On the summary path an HTTP status error does the same. A `stage_history` id with no news item also raises, at `target.text`. The model treats all of these as `Abort`: earlier entities keep their committed updates and later ones are not visited.
- **Curated fields.** The summary pass fills `corp_fam` and `category` only where they are falsy (`populate_blanks.py:319-322`). The single-entity path (`populate_blanks.py:371-374`) overwrites both with any truthy new value. `Reconcile.CorpFamPoliciesDiffer` states the contrast.
- **Empty summaries.** The timeline pass tests `summary == None` (`populate_blanks.py:339`), so an entity whose summary is the empty string is not skipped (`Reconcile.TimelineSummaryTest`).

## Model

| member | source | states |
|---|---|---|
| PyStr.Find | backend/populate_blanks.py:183 | `-1` exactly when the character is absent; otherwise an index holding it with no earlier occurrence |
| PyStr.RFind | backend/populate_blanks.py:184 | `-1` exactly when the character is absent; otherwise an index holding it with no later occurrence |
| PyStr.EscapeNewlines | backend/populate_blanks.py:280 | the sanitised text holds no line break |
| PyStr.EscapeNewlinesChar | backend/populate_blanks.py:280 | a line break becomes backslash and `n`; every other character is kept |
| PyStr.EscapeNewlinesAppend | backend/populate_blanks.py:280 | escaping distributes over concatenation, so it works character by character and in order |
| PyStr.EscapeNewlinesIdentity | backend/populate_blanks.py:280 | text without line breaks is unchanged |
| PyStr.Split | backend/utilities/copy_github_to_local.py:104 | at least one part, and no part contains the separator |
| PyStr.FirstComponent | backend/utilities/copy_github_to_local.py:104 | a normalised relative path splits into its first component followed by the split of the rest |
| PyStr.JoinSplitRoundTrip | backend/utilities/copy_github_to_local.py:104-106 | joining the split parts of a normalised relative path gives the path back |
| PyStr.JoinFromSplit | backend/utilities/copy_github_to_local.py:106 | joining the parts onto a prefix gives prefix, `/`, path |
| Json.Get | backend/populate_blanks.py:190-194 | `data.get(key)` is a value exactly when the key maps to a string; a missing key or `null` gives `None` |
| Json.CollectGet | backend/populate_blanks.py:190-194 | after decoding, a key reads as its last member's value: a repeated key keeps the later value |
| Json.ParseCharsEncoded | backend/populate_blanks.py:189 | the string literal of any encodable text decodes back to that text, escaped line breaks included |
| Json.ParseObjectText | backend/populate_blanks.py:189 | round trip: parsing the rendering of a flat string object gives back the object |
| Json.ParseObjectAt | backend/populate_blanks.py:189 | a rendered object followed by more text parses exactly when only whitespace follows |
| Json.ParseRejectsBadStart | backend/populate_blanks.py:189 | an object whose first member does not start with a quote is rejected |
| Json.ParseRejectsBadValue | backend/populate_blanks.py:189 | a member value that is neither a string nor `null` (Python's `None`, for one) is rejected |
| Json.ParseCharsRejectsControl | backend/populate_blanks.py:189 | an unescaped control character inside a string is rejected (section 7 of RFC 8259) |
| Json.ParseRejectsBadString | backend/populate_blanks.py:189 | a member whose value string fails to decode makes the object invalid |
| Json.ParseRejectsTrailingComma | backend/populate_blanks.py:189 | a comma after the last member is rejected (section 4 of RFC 8259) |
| ResponseExtraction.BraceSpanIsFindRFind | backend/populate_blanks.py:183-185 | the first `{` and the last `}` of a brace span are what `find` and `rfind` report |
| ResponseExtraction.HasBraceSpanFind | backend/populate_blanks.py:183-185 | the guard `start != -1 and end != -1 and start < end` holds exactly when some `{` precedes some `}` |
| ResponseExtraction.SliceBraces | backend/populate_blanks.py:183-186 | with a `{` before a `}`, the inclusive substring from the first `{` to the last `}`; otherwise the text unchanged |
| ResponseExtraction.SliceBracesBounds | backend/populate_blanks.py:183-186 | a sliced text starts with `{` and ends with `}` |
| ResponseExtraction.SliceBracesKeepsObject | backend/populate_blanks.py:183-186 | a text that already starts with `{` and ends with `}` is not changed |
| ResponseExtraction.SliceBracesIdempotent | backend/populate_blanks.py:275-279 | slicing twice is slicing once |
| ResponseExtraction.SliceBracesDropsProse | backend/populate_blanks.py:183-186 | prose before and after an object, without braces of its own, is dropped |
| ResponseExtraction.FastPathKeepsText | backend/populate_blanks.py:268-279 | whenever the fast-path shape matches, the slice would not have changed the text |
| ResponseExtraction.SanitizeTimeline | backend/populate_blanks.py:268-280 | the text handed to `json.loads` holds no line break |
| ResponseExtraction.SanitizeTimelineAsWritten | backend/populate_blanks.py:268-280 | the same for the fast-path test as written |
| ResponseExtraction.SanitizeTimelineIsSliceThenEscape | backend/populate_blanks.py:268-280 | the timeline path is the slice followed by the escape, whatever the fast path decides |
| ResponseExtraction.TimelineOf | backend/populate_blanks.py:281-288 | a timeline is recovered only from text that parses |
| ResponseExtraction.EscapeRawObject | backend/populate_blanks.py:280 | escaping a one-line object written with raw line breaks inside its values gives the JSON rendering of that object |
| ResponseExtraction.AsWrittenAround | backend/populate_blanks.py:268-279 | around an object between prose without braces, the fast-path test as written and the corrected one agree, and so do the extracted timelines, unless the reply is the object followed by exactly one line break |
| ResponseExtraction.TimelineRecovered | backend/populate_blanks.py:268-288 | as written: an object written on one line, whose values may hold raw line breaks, between prose without braces yields the value of its last `timeline` member, breaks included, unless the reply is the object plus exactly one line break |
| ResponseExtraction.TimelineRecoveredCorrected | backend/populate_blanks.py:268-288 | with the corrected fast path, the same holds for every such reply |
| ResponseExtraction.PrettyPrintedRejected | backend/populate_blanks.py:280-288 | as written and corrected: a pretty-printed object (a break after `{`) never yields a timeline, because every line break is escaped |
| ResponseExtraction.NoneValueRejected | backend/populate_blanks.py:260 | an object with the value `None` is not JSON |
| ResponseExtraction.NoneValueReplyRejected | backend/populate_blanks.py:260 | as written and corrected: such an object after prose yields no timeline |
| ResponseExtraction.PlaceholderRejected | backend/populate_blanks.py:260 | as written and corrected: the HTTP-error placeholder yields no timeline |
| ResponseExtraction.TimelineShapeOf | backend/populate_blanks.py:268 | an object of the form `{`, spaces, `"timeline": "`, value without quote or break, `"`, optional comma, `}` matches the fast-path pattern |
| ResponseExtraction.SingleLineReplyShape | backend/populate_blanks.py:268 | `{"timeline": "v"}` matches the fast-path pattern |
| ResponseExtraction.TrailingCommaTakesFastPath | backend/populate_blanks.py:268-288 | `{"timeline": "v",}` takes the fast path and then yields no timeline, as written and corrected |
| ResponseExtraction.PromptExampleShape | backend/populate_blanks.py:119-121 | the prompt's own example layout matches the fast-path pattern |
| ResponseExtraction.PromptExampleRejected | backend/populate_blanks.py:119-121 | a reply copying that layout yields no timeline, as written and corrected |
| ResponseExtraction.EscapedTrailerRejected | backend/populate_blanks.py:280-283 | an object followed by an escaped line break does not parse |
| ResponseExtraction.FinalNewlineAsWritten | backend/populate_blanks.py:268-269 | as written, `{"timeline": "v"}` plus a final line break takes the fast path and yields no timeline |
| ResponseExtraction.FinalNewlineCorrected | backend/populate_blanks.py:268-279 | with the fast path anchored at the true end, that reply is sliced and yields `v` |
| ResponseExtraction.FinalNewlineRecovered | backend/populate_blanks.py:268-288 | with the corrected fast path, a one-member object followed by a line break yields its value |
| ResponseExtraction.SummaryRecovered | backend/populate_blanks.py:183-194 | a JSON object between prose without braces yields each of the five fields as its key's last value, or `None` when the key is absent |
| ResponseExtraction.RawBreakRejected | backend/populate_blanks.py:189 | a value with a raw line break does not parse |
| ResponseExtraction.SummaryRawBreakRejected | backend/populate_blanks.py:183-198 | the summary path escapes nothing: such a reply yields five `None`s |
| ResponseExtraction.ProseSummaryReply | backend/populate_blanks.py:183-198 | a reply without any `{` yields five `None`s |
| StageHistory.RenderHistory | backend/populate_blanks.py:212-225 | fails exactly when an entry has fewer than two fields or names an unknown news id; otherwise the fold of the entries' pieces in stored order |
| StageHistory.HistoryTextSnoc | backend/populate_blanks.py:213-224 | appending an entry appends its piece |
| StageHistory.HistoryTextAppend | backend/populate_blanks.py:212-225 | rendering a concatenation of histories is concatenating their renderings |
| StageHistory.HistoryTextSingle | backend/populate_blanks.py:214-224 | one entry renders as `date: d; stage value: s; ` followed by `no news id; ` or the news id, text and summary |
| StageHistory.EntryTextNoBreak | backend/populate_blanks.py:214-225 | an entry whose fields and news texts hold no line break renders without one |
| StageHistory.HistoryTextNoBreak | backend/populate_blanks.py:212-225 | a history whose fields and news texts hold no line break renders as a single line, so none is added between entries |
| Reconcile.SummaryReply | backend/populate_blanks.py:169-198 | `create_summary_content` returns exactly when the model returned text; any error raises at the unbound `content` |
| Reconcile.TimelineReply | backend/populate_blanks.py:247-288 | `create_timeline_content` returns unless the error was other than an HTTP status error; after an HTTP status error it returns no timeline; a timeline comes only from reply text that, sanitised as written, parses |
| Reconcile.SummaryStep | backend/populate_blanks.py:306-323 | the summary pass raises for an entity exactly when it consults the model and the content function raised |
| Reconcile.SummaryStepFields | backend/populate_blanks.py:311-322 | for any returned fields: a falsy summary leaves the row; a truthy one overwrites summary and both dates and fills only a falsy `corp_fam` or `category` |
| Reconcile.SummaryStepKeeps | backend/populate_blanks.py:306-323 | name, status, history and timeline are untouched; an entity not consulted is unchanged; a change writes a truthy summary; a truthy `corp_fam` or `category` is kept |
| Reconcile.SummaryStepSettles | backend/populate_blanks.py:307-309 | an entity the pass filled is skipped by the next pass, whatever the model returns |
| Reconcile.SummaryFromReply | backend/populate_blanks.py:311-322 | a reply holding an object with a truthy summary overwrites summary and dates and fills `corp_fam` and `category` only where falsy |
| Reconcile.SummaryUnparsedKeepsRow | backend/populate_blanks.py:188-198 | a reply that does not parse leaves the entity as it was, and the pass goes on |
| Reconcile.TimelineContent | backend/populate_blanks.py:342-347 | the content step raises exactly when the history cannot be rendered or the model call raised |
| Reconcile.TimelineStep | backend/populate_blanks.py:335-347 | the timeline pass raises exactly when it consults the model and the content step raises |
| Reconcile.TimelineContentKeeps | backend/populate_blanks.py:342-347 | only the timeline changes, and only to a truthy value |
| Reconcile.TimelineStepKeeps | backend/populate_blanks.py:335-347 | only the timeline of a consulted entity changes, and only to a truthy value |
| Reconcile.TimelineHttpErrorKeepsRow | backend/populate_blanks.py:259-260 | after an HTTP status error the entity is unchanged, unless its history raises |
| Reconcile.TimelineSummaryTest | backend/populate_blanks.py:339-340 | an empty-string summary does not exclude an entity from the timeline pass; `None` does |
| Reconcile.TimelineStepSettles | backend/populate_blanks.py:336-338 | an entity whose timeline the pass wrote is skipped by the next pass |
| Reconcile.TimelineFromReply | backend/populate_blanks.py:342-347 | a reply holding a one-line object with a truthy timeline writes exactly that timeline, unless the reply is the object plus exactly one line break |
| Reconcile.TimelineFinalNewlineKeepsRow | backend/populate_blanks.py:268-288 | as written, the reply `{"timeline": "v"}` followed by one line break leaves the row unchanged |
| Reconcile.PassOutcome | backend/populate_blanks.py:306-325 | the pass stops at the first entity whose step raises; entities before it take their step's result and the rest stay as they were |
| Reconcile.SummaryPassKeepsCurated | backend/populate_blanks.py:319-322 | over the whole pass, no row's name, status, history or timeline changes, and no truthy `corp_fam` or `category` is replaced |
| Reconcile.TimelinePassWritesOnlyTimelines | backend/populate_blanks.py:335-349 | over the whole pass, only timelines change, only for consulted entities, and only to truthy values |
| Reconcile.FirstNamed | backend/populate_blanks.py:360 | `.first()` of the name filter: the lowest index holding the name, or none when no row has it |
| Reconcile.SingleSummary | backend/populate_blanks.py:361-376 | returns early exactly when the new summary is falsy and raises exactly when the content function raised; otherwise writes a truthy summary and leaves name, status, history and timeline |
| Reconcile.SingleSummaryFields | backend/populate_blanks.py:367-374 | summary and start date are overwritten; end date, `corp_fam` and `category` take the new value only when it is truthy |
| Reconcile.SingleEntity | backend/populate_blanks.py:359-384 | the call raises exactly when regenerating the summary raised, or when the timeline half is reached and the history cannot be rendered or the timeline call raised |
| Reconcile.SingleEntityKeeps | backend/populate_blanks.py:359-384 | name, status and history are untouched; with a summary present only the timeline changes; a changed timeline is truthy |
| Reconcile.SingleStopsWithoutSummary | backend/populate_blanks.py:363-366 | a falsy regenerated summary returns before any timeline attempt, changing nothing |
| Reconcile.CorpFamPoliciesDiffer | backend/populate_blanks.py:371-372 | a curated `corp_fam` is kept by the summary pass but replaced by the single-entity path |
| Reconcile.DateEndedPoliciesDiffer | backend/populate_blanks.py:369-370 | a missing end date clears a stored one in the summary pass, but the single-entity path keeps it |
| Reconcile.SingleOverwritesTimeline | backend/populate_blanks.py:377-382 | the single-entity path writes a truthy timeline even over an existing one |
| PopulateBlanks.Entity.FillSummary | backend/populate_blanks.py:307-322 | the row's new fields are the summary step's result, and it raises exactly when the step aborts |
| PopulateBlanks.Entity.CreateTimelineContent | backend/populate_blanks.py:212-288 | raises exactly when the history cannot be rendered or the model call raised; otherwise returns `got` unchanged. `got` is an input: the timeline the reply yields (`Reconcile.TimelineReply`), or `None` when the call raised |
| PopulateBlanks.Entity.FillTimeline | backend/populate_blanks.py:336-347 | the row's new fields are the timeline step's result, and it raises exactly when the step aborts |
| PopulateBlanks.Entity.WriteTimeline | backend/populate_blanks.py:342-347 | the row's new fields are the content step's result |
| PopulateBlanks.Entity.RegenerateSummary | backend/populate_blanks.py:361-376 | the row after the summary half, and whether the call stops there |
| PopulateBlanks.Entity.CreateTimeline | backend/populate_blanks.py:361-383 | the row and the raise are those of the single-entity step |
| PopulateBlanks.ParseForBlankSummary | backend/populate_blanks.py:299-325 | the rows afterwards, and where the loop raised, are those of the summary pass over the rows as they were |
| PopulateBlanks.ParseForBlankTimeline | backend/populate_blanks.py:328-350 | the rows afterwards, and where the loop raised, are those of the timeline pass over the rows as they were |
| PopulateBlanks.CreateTimelineForEntity | backend/populate_blanks.py:353-384 | the first row with the name takes the single-entity step and no other row changes; with no such row the call raises |
| CopyGithubToLocal.Route | backend/utilities/copy_github_to_local.py:95-100 | `www` in the directory path sends it to the web tree; otherwise `backend` sends it to the back-end tree; a directory with neither is skipped |
| CopyGithubToLocal.RouteBySubstring | backend/utilities/copy_github_to_local.py:95-100 | any path containing `www` goes to the web tree, even under `backend` |
| CopyGithubToLocal.BackendTreeRouted | backend/utilities/copy_github_to_local.py:95-100 | a directory of the clone's `backend` tree goes to the back-end tree when its path holds no `w` |
| CopyGithubToLocal.CloneRootSkipped | backend/utilities/copy_github_to_local.py:95-100 | the clone's own directory is skipped |
| CopyGithubToLocal.DstDirStripsFirst | backend/utilities/copy_github_to_local.py:101-109 | the target is the root, `/`, and the relative path minus its first component; a one-component path maps to the root with a trailing `/` |
| CopyGithubToLocal.RestartFor | backend/utilities/copy_github_to_local.py:158-162 | under `/migrations/version` the upgrade; otherwise the reload flag for `middleapp.wsgi`, the WSGI touch for the four Flask files and `Pipfile`, and nothing for any other name |
| CopyGithubToLocal.PlaceFile | backend/utilities/copy_github_to_local.py:117-162 | one file is copied exactly when its target is missing or strictly older and the copy succeeds; then its hooks |
| CopyGithubToLocal.PlaceDir | backend/utilities/copy_github_to_local.py:95-149 | one directory: nothing when it is not routed; otherwise `makedirs` when its target is missing, then its files, with their count |
| CopyGithubToLocal.PlaceDirFiles | backend/utilities/copy_github_to_local.py:116-162 | the count and the actions for one directory's files, in order |
| CopyGithubToLocal.PlaceFiles | backend/utilities/copy_github_to_local.py:92-163 | the count and the actions of the whole walk, directory by directory |
| CopyGithubToLocal.CounterIsCopies | backend/utilities/copy_github_to_local.py:121-145 | `files_copied` equals the number of copies in the action log: one per successful copy, none on skip or failure |
| CopyGithubToLocal.CounterBound | backend/utilities/copy_github_to_local.py:116-145 | `files_copied` never exceeds the number of files visited |
| CopyGithubToLocal.HooksFollowCopy | backend/utilities/copy_github_to_local.py:119-162 | a file that is not copied causes no action; a copied file's actions open with its copy, the only one among them |
| CopyGithubToLocal.PipfileHooks | backend/utilities/copy_github_to_local.py:151-162 | `pipenv install` runs exactly for a copied `Pipfile`, followed outside migrations by the WSGI touch |
| CopyGithubToLocal.MigrationsWin | backend/utilities/copy_github_to_local.py:158-162 | under a `/migrations/version` path the upgrade is chosen whatever the file name, and no reload or touch |
| CopyGithubToLocal.OtherFilesNoRestart | backend/utilities/copy_github_to_local.py:69-89 | outside migrations, a name outside the dispatch table causes its copy and nothing else |

## Left out

- The Wikipedia and DuckDuckGo lookups, the Mistral client and the LangChain chain (`populate_blanks.py:150-181`, `228-266`). These are network calls. Their result is an input: the reply, or what the content function returned.
- The prompt templates and their formatting (`populate_blanks.py:58-135`). They are natural-language text with no logic. Only the layout of the prompt's JSON example (lines 119-121) is modelled.
- The database session, `commit` and `app.app_context`. A field assignment stands for persistence: the entity's fields after each step are what it commits. `News.query.get` is a lookup in a given map from the rendered id to the news item's rendered text and summary.
- Logging in both files, and the path set-up of `populate_blanks.py`.
- Json: only flat objects whose values are strings or `null` are decoded. A reply whose object holds a number, a boolean, an array or a nested object is rejected, where `json.loads` would accept it (`data.get` would then return a non-string). `\u` escapes are rejected as well.
- The fast-path pattern is a predicate on the text's shape, not a regular-expression engine. It models `\s` as Python's set of Unicode white space.
- `status` is a string compared with `"disabled"`. `stage_current` and the other fields the prompt reads are not modelled, because no step writes them.
- git fetch, status and pull (`copy_github_to_local.py:28-49`, `166-170`), `os.walk`, `os.makedirs`, `shutil.copy2`, `cp`, `pipenv` and `flask db upgrade`, and the sleeps. The walk and the file system's answers are input records. Each hook subprocess (`pipenv install`, `touch`, `flask db upgrade`) is logged as run whether or not it succeeds. A copy (`shutil.copy2` or `cp`) is logged, and counted, only when it succeeds.
- Modification times are integers rather than floats, since only the strict `>` comparison matters.
- CopyGithubToLocal.PlaceFile: a `cp` failure that raises something other than `CalledProcessError` (the program missing, for instance) would end the run. The model treats every copy failure as skipped.
- CopyGithubToLocal.PlaceFile: the restart hooks (`touch` and `pipenv run flask db upgrade`, `copy_github_to_local.py:76-89`) catch only `CalledProcessError`. If the program is missing the exception would end the run. The model records the hook as run and goes on. The `pipenv install` hook catches every exception, as the model has it.
- CopyGithubToLocal.PlaceFiles: an `os.makedirs` failure, which would end the run, is not modelled. Making the directory always succeeds.
- TimelineRecovered: states nothing for a reply that is exactly the object followed by one line break. As written, that reply yields no timeline (`ResponseExtraction.FinalNewlineAsWritten`, see Findings).
- TimelineFromReply: states nothing for the same reply. As written it leaves the row unchanged (`Reconcile.TimelineFinalNewlineKeepsRow`).

## Findings

| source | as written | input that shows it | evidently intended | confidence | as-written member | corrected member |
|---|---|---|---|---|---|---|
| backend/populate_blanks.py:268-269 | The fast-path pattern ends in `$`. Without MULTILINE, `$` also matches just before a final line break. Such a reply skips the slice, and line 280 then escapes that break into `\n` after the closing brace, which `json.loads` rejects. | the reply `{"timeline": "v"}` followed by one line break | The fast path is a shortcut for a reply that is already the whole object: skipping the slice should never change the outcome. The slice would drop the break, and the reply would yield `v`. | not executed | ResponseExtraction.FinalNewlineAsWritten | ResponseExtraction.FinalNewlineCorrected |

The model of the program uses the extraction as written (`ResponseExtraction.ExtractTimelineAsWritten`, through `Reconcile.TimelineReply`). The corrected extraction (`ResponseExtraction.ExtractTimeline`) takes the fast path only when the pattern matches the whole text, and it stands beside the as-written one:
- `ResponseExtraction.FastPathKeepsText` proves that the corrected fast path never skips a slice that would have changed the text.
- `ResponseExtraction.AsWrittenAround` proves that the two agree on every reply except an object of the fast-path shape followed by exactly one line break.
