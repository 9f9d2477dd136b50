# Course viewer rules, modelled in Dafny

The modelled system is a web course viewer. Courses are trees of lessons and
projects. Each lesson or project holds an ordered list of steps, and each step
is a Markdown page that may contain exercises.

Most of the application is rendering and I/O glue. Underneath it sits a set of
small rules, and this project models and proves them:

- how a step's Markdown is cut into exercise cards (`ExerciseParser`);
- how progress is recorded:
  - the client-side collections and hooks (`ProgressHooks`);
  - the per-step exercise flags (`ExerciseProgress`);
  - the server tables and their upserts (`ProgressApi`);
- the browser chat store (`ChatStorage`);
- the AI-configuration record (`AiConfig`);
- the two settings forms (`SettingsForms`);
- the model pickers' tables (`ModelCatalog`);
- the bundled content lookups and the course order (`ContentBundle`);
- the step navigation bar (`StepNavigation`);
- the sidebar layout hook (`SidebarLayout`);
- the course card (`CourseCard`);
- the credential envelopes that protect users' API keys (`Auth`).

Shared pieces are `Wrappers` (Option and Result), `Text` and `Encoding`.
- `Text` holds JavaScript's `trim`, `split`, `join`, `startsWith` and `endsWith` on strings.
- `Encoding` holds Node's hexadecimal codec and its base64 codec (section 4 of RFC 4648).

Code that updates state in place is modelled as classes whose methods carry
`modifies` clauses and state the new state as a function of the old one. The
classes are:

- `ExerciseProgressHook`, `ChatStore`, `ConfigStore`, `ProgressCollections`;
- `LayoutState`, `SettingsPage`, `SettingsDialog`, `ServerDb`.

The functions they call are specified separately, and the properties are lemmas about those functions. Loops in the source are methods with loop invariants:

- the exercise parser's line loop and the block loop;
- the index build of the course outline and the next-incomplete search;
- the in-place sort of `getCourseIds`.

The cipher, the key derivation and the random source are not modelled
concretely; a `Crypto` value stands for them. `Crypto` holds three
functions:

- scrypt (RFC 7914) as a key-derivation function;
- AES-256-GCM (NIST SP 800-38D) encryption, as a seal function;
- decryption, as an unseal function.

The ghost predicate `Auth.Sound` states what the envelope code relies on:
- the derived key has the requested length;
- unsealing what was sealed gives back the text.

The round-trip lemmas take `Sound` as a precondition. Random bytes are
parameters: the `Fresh` draw carries a user key and two IVs, with the sizes
`randomBytes` gives.

Some behaviours of the code are worth knowing; each is proved:

- Composite ids join fields with `:`. Ids free of `:` split back into their fields, so distinct steps never share a row or a key.
- An id that contains `:` can collide with another. `ProgressApi.StepRowIdsCollide` exhibits two different id tuples with one row id.
- The settings dialog resets the model against the table in `src/lib/ai-config-collection.ts`. The settings page resets it against the table in `src/lib/db.ts`. So a model chosen in the dialog (`claude-3-5-sonnet-20241022`) is replaced by `claude-opus-4-5` when the page is opened (`SettingsForms.DialogChoiceResetOnPage`).
- The stored sidebar layout is accepted with a main size from 50 up. The comment at `src/hooks/use-sidebar-layout.ts:5` says 70–85; the model follows the check at line 29.
- Leaving `manuallySet` out of `updateLessonProgress` clears a manual mark already stored (`ProgressApi.OmittedManualFlagClears`).
- Decryption splits on `:` and reads the first three fields, so extra fields are ignored (`Auth.ExtraFieldsIgnored`).

## Model

| member | source | states |
|---|---|---|
| ExerciseParser.ParseExercises | src/components/exercise-list.tsx:11-75 | The line loop over `content.split('\n')`, with its three mutable variables, computes the scanner fold `Parse` followed by the final flush and data check |
| ExerciseParser.SaveBuffer | src/components/exercise-list.tsx:18-30 | The flush: with lines buffered, the open section receives their trimmed join and the buffer empties; TaggedSectionOverwrites and CloseTagClosesAnySection state its effect |
| ExerciseParser.Classify | src/components/exercise-list.tsx:33-52 | Which branch a line takes, tested on its trimmed form in the order of the if-chain; OpenTagWithText, OpenTagStep, CloseTagStep, CloseTagClosesAnySection, FenceLineIsSkipped, PlainLineOutsideSection and PlainLineInsideSection state each branch |
| ExerciseParser.TakeText | src/components/exercise-list.tsx:52-59 | The plain-line branch: inside an open section the line is buffered untrimmed; outside, a non-blank line opens the description with the line buffered and a blank one is skipped; PlainLineInsideSection and PlainLineOutsideSection state it |
| ExerciseParser.Feed | src/components/exercise-list.tsx:32-61 | One loop iteration; FeedConsistent, FenceLineIsSkipped, PlainLineOutsideSection, PlainLineInsideSection, OpenTagStep and CloseTagStep state what it does |
| ExerciseParser.Parse | src/components/exercise-list.tsx:11-75 | The whole scan; ParseExercises is proved equal to it and PlainContent and FenceLinesIgnored state what it returns |
| ExerciseParser.Finish | src/components/exercise-list.tsx:63-74 | After the loop the draft left by the last flush is returned alone exactly when its description, hint or solution is a non-empty text, and nothing is returned otherwise |
| ExerciseParser.FenceLineIsSkipped | src/components/exercise-list.tsx:49-51 | A line whose trimmed form starts with three backticks leaves the scanner state unchanged |
| ExerciseParser.FenceLinesIgnored | src/components/exercise-list.tsx:49-51 | Dropping every fence line from the input, wherever it stands (inside `<solution>` too), leaves the scanner's result unchanged |
| ExerciseParser.WithoutFences | src/components/exercise-list.tsx:49-51 | The lines kept after dropping fences contain no fence line |
| ExerciseParser.FeedConsistent | src/components/exercise-list.tsx:32-61 | Every loop iteration preserves the invariant that lines are buffered only while a section is open |
| ExerciseParser.RunConsistent | src/components/exercise-list.tsx:14-61 | From the initial state, the scanner never holds buffered lines outside a section |
| ExerciseParser.PlainLineOutsideSection | src/components/exercise-list.tsx:52-59 | With no section open, a blank plain line is skipped and a non-blank one opens the description with that line buffered |
| ExerciseParser.PlainLineInsideSection | src/components/exercise-list.tsx:53-54 | Inside an open section a plain line is appended to the buffer untrimmed |
| ExerciseParser.CloseTagClosesAnySection | src/components/exercise-list.tsx:39-48 | Either closing tag flushes the buffer into whatever section is open and closes it |
| ExerciseParser.TaggedSectionOverwrites | src/components/exercise-list.tsx:18-48 | A complete hint or solution section sets that field to its trimmed joined body, replacing any earlier value, and leaves the scanner closed with an empty buffer |
| ExerciseParser.OpenTagStep | src/components/exercise-list.tsx:35-45 | A bare opening tag opens its section with one empty buffered line |
| ExerciseParser.OpenTagWithText | src/components/exercise-list.tsx:35-45 | An opening tag followed by text on its line flushes the buffer, opens the tag's section and buffers the text after the tag, trimmed |
| ExerciseParser.CloseTagStep | src/components/exercise-list.tsx:39-48 | A bare closing tag flushes into the open section and closes it |
| ExerciseParser.FeedBodyInSection | src/components/exercise-list.tsx:52-54 | Plain lines fed into an open section are appended to its buffer in order |
| ExerciseParser.FirstNonBlank | src/components/exercise-list.tsx:55-58 | The index of the first non-blank line: all lines before it are blank |
| ExerciseParser.FeedPlainLines | src/components/exercise-list.tsx:52-60 | On text without tags or fences, the leading blank lines are skipped and every later line is buffered as the description |
| ExerciseParser.TrimJoinFromFirstNonBlank | src/components/exercise-list.tsx:20 | Skipped leading blank lines do not change the trimmed joined section text |
| ExerciseParser.PlainContent | src/components/exercise-list.tsx:11-75 | Text without tags or fences parses to its trimmed self as the one description, or to no exercise when blank |
| ExerciseParser.QuoteFrom | src/components/exercise-list.tsx:87 | The first `"` at or after an index, or none |
| ExerciseParser.TitleMatchFrom | src/components/exercise-list.tsx:87 | The leftmost match of `title="X"` with X non-empty and quote-free, or none when no such match exists |
| ExerciseParser.TitleMatch | src/components/exercise-list.tsx:87 | The match is a `title="X"` attribute with X non-empty and quote-free and no such attribute starts earlier in the block; none exactly when the block has no such attribute |
| ExerciseParser.Title | src/components/exercise-list.tsx:87-88 | The card title is the first capture of the leftmost title attribute, so non-empty and quote-free, and `Exercise` when the block has none |
| ExerciseParser.WithoutTitle | src/components/exercise-list.tsx:91 | The block is cut into the text before the leftmost attribute, the attribute itself and the text after it; only that attribute is removed (later ones stay in the text after it) and the rest is trimmed; without an attribute the block is only trimmed |
| ExerciseParser.WithoutClosingFence | src/components/exercise-list.tsx:94 | A trailing newline-and-fence is stripped before trimming, anything else is only trimmed, and the result is already trimmed |
| ExerciseParser.FenceStripped | src/components/exercise-list.tsx:94 | A body followed by the closing fence comes back as the trimmed body |
| ExerciseParser.Blocks | src/components/exercise-list.tsx:81 | The blocks are non-empty and none contains the exercise marker; BlocksArePieces pins down which pieces and their order |
| ExerciseParser.NonEmpty | src/components/exercise-list.tsx:81 | Every kept piece is a non-empty input piece and every non-empty input piece is kept; NonEmptyAppend and NonEmptySingle fix the order and the repeats |
| ExerciseParser.NonEmptyAppend | src/components/exercise-list.tsx:81 | Filtering a concatenation gives the survivors of the left part followed by those of the right part, so order and repeats are kept |
| ExerciseParser.NonEmptySingle | src/components/exercise-list.tsx:81 | One piece survives exactly when it is non-empty |
| ExerciseParser.BlocksArePieces | src/components/exercise-list.tsx:81 | For any cutting of the content into marker-free pieces that the marker joins back into it, the blocks are those pieces in order with the empty ones dropped |
| ExerciseParser.NoMarkerSingleBlock | src/components/exercise-list.tsx:81 | Non-empty content without a marker is one block, the whole text |
| ExerciseParser.BlockExercise | src/components/exercise-list.tsx:85-102 | A block yields an exercise exactly when its cleaned text parses to some draft; the exercise is the first draft with the block's title, as the spread at lines 97-100 |
| ExerciseParser.CollectShape | src/components/exercise-list.tsx:85-103 | At most one exercise per block, each with a non-empty field |
| ExerciseParser.Collect | src/components/exercise-list.tsx:85-103 | The block loop as a fold; CollectShape, CollectStep and ExerciseList state its result |
| ExerciseParser.ExerciseList | src/components/exercise-list.tsx:81-103 | The block loop collects, in block order, the first exercise of every block that parses to one |
| ProgressHooks.StepId | src/lib/progress-hooks.ts:18 | A step record id is `courseId:itemId:stepId` |
| ProgressHooks.LessonId | src/lib/progress-hooks.ts:65 | A lesson record id is `courseId:itemId` |
| ProgressHooks.StepIdParts | src/lib/progress-hooks.ts:18 | A step id built from colon-free ids splits back into them |
| ProgressHooks.LessonIdParts | src/lib/progress-hooks.ts:65 | A lesson id built from colon-free ids splits back into them |
| ProgressHooks.IdsDistinct | src/lib/progress-hooks.ts:18-65 | Colon-free step ids are injective and never equal a lesson id |
| ProgressHooks.ToggledSteps | src/lib/progress-hooks.ts:30-43 | Step toggle flips the step's completion (deleting a completed record) and leaves every other record as it was |
| ProgressHooks.MarkedSteps | src/lib/progress-hooks.ts:45-56 | markComplete leaves the step completed, changes nothing when it already was, and touches no other record |
| ProgressHooks.ToggleTwiceFromAbsent | src/lib/progress-hooks.ts:30-43 | Two toggles from a step without a record restore the collection exactly |
| ProgressHooks.MarkCompleteIdempotent | src/lib/progress-hooks.ts:45-56 | Marking a step complete twice equals marking it once |
| ProgressHooks.ToggledLessons | src/lib/progress-hooks.ts:78-91 | Lesson toggle flips completion; a completed lesson loses its record, and an uncompleted one gains exactly the record with its id, the course and item ids, completed, manually set and the given time; every other lesson record is as it was |
| ProgressHooks.ToggleLessonTwiceFromAbsent | src/lib/progress-hooks.ts:78-91 | Two toggles from a lesson without a record restore the collection exactly |
| ProgressHooks.AutoDecision | src/lib/progress-hooks.ts:234-254 | A manual lesson is kept; an auto record is inserted exactly when all of a non-empty lesson's steps are done and it is not manual; a completed non-manual lesson with counts that differ is deleted |
| ProgressHooks.AutoSettles | src/lib/progress-hooks.ts:234-254 | Running the effect again on its own result keeps the keys, the other records, the lesson's completed and manually-set state, and the record itself except its completedAt, which the repeated insert moves to the new time |
| ProgressHooks.ManualLessonUntouched | src/lib/progress-hooks.ts:238-251 | The effect never changes the records when the lesson is manually set |
| ProgressHooks.ProgressCollections.LessonStepRecords | src/lib/progress-hooks.ts:220-224 | The live query returns exactly the step records of the given course and item |
| ProgressHooks.ProgressCollections.ToggleStep | src/lib/progress-hooks.ts:30-43 | The step collection becomes the toggled one and the lesson collection is unchanged |
| ProgressHooks.ProgressCollections.MarkStepComplete | src/lib/progress-hooks.ts:45-56 | The step collection becomes the marked one and the lesson collection is unchanged |
| ProgressHooks.ProgressCollections.ToggleLesson | src/lib/progress-hooks.ts:78-91 | The lesson collection becomes the toggled one and the step collection is unchanged |
| ProgressHooks.ProgressCollections.AutoLessonComplete | src/lib/progress-hooks.ts:219-255 | One run of the effect applies the decision for the lesson's current step records and leaves steps unchanged |
| ProgressHooks.AfterAuto | src/lib/progress-hooks.ts:234-254 | Per decision: an insert writes the auto record (completed, not manually set, the given time), a delete removes the lesson's record, keep leaves the collection as it was; every other record is unchanged |
| ProgressHooks.Percentage | src/lib/progress-hooks.ts:106 | The percentage is 0 for an empty course, otherwise within half a point of 100·completed/total; it is at most 100 when completed ≤ total, 100 when all are done, and 0 when none are |
| ProgressHooks.PercentageBounds | src/lib/progress-hooks.ts:106 | Round-half-up of 100·completed/total satisfies those bounds |
| ProgressHooks.CourseProgress | src/lib/progress-hooks.ts:99-109 | totalSteps sums the items' step counts; the percentage is at most 100 when the completed count does not exceed it, and 0 for a course with no steps |
| ProgressHooks.CountDone | src/lib/progress-hooks.ts:144 | The completed-step count of an item is at most its step count, equals it exactly when every step is done, and is 0 exactly when none is |
| ProgressHooks.LessonProgressOf | src/lib/progress-hooks.ts:143-150 | completed ≤ total = number of steps, the percentage is at most 100, and it is 100 when all steps of a non-empty item are done |
| ProgressHooks.IndexById | src/lib/progress-hooks.ts:123-131 | The map built by the loop holds every record's id, and under each id it holds the last record with that id |
| ProgressHooks.ItemRefs | src/lib/progress-hooks.ts:197 | One item's steps, in order |
| ProgressHooks.RefsCount | src/lib/progress-hooks.ts:104 | The course's step list, in item-then-step order, has totalSteps entries |
| ProgressHooks.TotalSteps | src/lib/progress-hooks.ts:104 | The reduce summing the items' step counts; RefsCount and CourseProgress relate it to the step list and the percentage |
| ProgressHooks.Refs | src/lib/progress-hooks.ts:196-197 | The nested loops' visiting order as a list; RefsCount gives its length |
| ProgressHooks.RefsPrefix | src/lib/progress-hooks.ts:196-203 | The steps of a prefix of the items form a prefix of the course's step list |
| ProgressHooks.FirstPending | src/lib/progress-hooks.ts:196-203 | The first not-completed step, or none exactly when every step is completed |
| ProgressHooks.FirstPendingAt | src/lib/progress-hooks.ts:196-203 | The first pending step is the one at the first index whose step is not done |
| ProgressHooks.NextIncompleteNone | src/lib/progress-hooks.ts:188-213 | The result is null exactly when every step is completed and the first item has no steps, or there is no item |
| ProgressHooks.NextIncompleteStep | src/lib/progress-hooks.ts:188-214 | The nested loops return the first incomplete step in item-then-step order, else the first item's first step, else null |
| ProgressHooks.NextIncomplete | src/lib/progress-hooks.ts:188-214 | The hook's result; NextIncompleteNone and NextIncompleteStep state it |
| ExerciseProgress.IsComplete | src/hooks/use-exercise-progress.ts:41-46 | A flag never written reads as false; a written one reads as stored |
| ExerciseProgress.WithCompleted | src/hooks/use-exercise-progress.ts:61-72 | setCompleted makes the flag read as given and leaves every other step and index as it read before |
| ExerciseProgress.Toggled | src/hooks/use-exercise-progress.ts:48-59 | toggleComplete negates one flag and leaves every other step and index unchanged |
| ExerciseProgress.ToggleIsSet | src/hooks/use-exercise-progress.ts:48-72 | Toggling is setting the flag to the negation of its current value |
| ExerciseProgress.ToggleTwice | src/hooks/use-exercise-progress.ts:54 | Toggling the same index twice restores every flag as isComplete reads it |
| ExerciseProgress.SetIdempotent | src/hooks/use-exercise-progress.ts:61-72 | Setting the same flag twice equals setting it once |
| ExerciseProgress.CompletedIndices | src/hooks/use-exercise-progress.ts:74-77 | The indices counted are exactly those whose flag reads true |
| ExerciseProgress.CompletedCount | src/hooks/use-exercise-progress.ts:74-77 | The count is at most the number of stored flags and is 0 exactly when no flag of the step is true |
| ExerciseProgress.CountAfterSet | src/hooks/use-exercise-progress.ts:61-77 | Setting a flag changes the step's count by one when the flag changes and not at all otherwise |
| ExerciseProgress.CountOfOtherStep | src/hooks/use-exercise-progress.ts:61-77 | Setting a flag of one step leaves every other step's count unchanged |
| ExerciseProgress.TotalCount | src/hooks/use-exercise-progress.ts:79-81 | getTotalCount returns its argument |
| ExerciseProgress.ExerciseProgressHook.Load | src/hooks/use-exercise-progress.ts:17-29 | In a browser, parsed stored progress replaces the state and the hook becomes loaded; otherwise the progress is kept |
| ExerciseProgress.ExerciseProgressHook.ToggleComplete | src/hooks/use-exercise-progress.ts:48-59 | The progress becomes the toggled map for the hook's step |
| ExerciseProgress.ExerciseProgressHook.SetCompleted | src/hooks/use-exercise-progress.ts:61-72 | The progress becomes the map with that flag set |
| ChatStorage.ChatKey | src/lib/chat-storage.ts:15-21 | The key is the three ids joined by `:` |
| ChatStorage.ChatKeyParts | src/lib/chat-storage.ts:15-21 | A key built from colon-free ids splits back into them |
| ChatStorage.ChatKeyInjective | src/lib/chat-storage.ts:15-21 | Distinct colon-free id triples have distinct keys |
| ChatStorage.ChatStore.AllChats | src/lib/chat-storage.ts:23-31 | The chats are empty on the server or when nothing parses, and otherwise are the stored chats |
| ChatStorage.ChatStore.StepMessages | src/lib/chat-storage.ts:33-41 | A step without an entry has no messages; otherwise its stored messages are returned |
| ChatStorage.ChatStore.SaveStepChat | src/lib/chat-storage.ts:43-57 | On the server nothing changes; in a browser the step reads back the saved messages and every other key reads as before |
| ChatStorage.ChatStore.ClearStepChat | src/lib/chat-storage.ts:59-69 | On the server nothing changes; in a browser the step reads no messages and every other key reads as before |
| AiConfig.Pick | src/lib/ai-config-hooks.ts:29-31 | `??` chains: the update when present (even empty), else the existing value, else the default |
| AiConfig.Merged | src/lib/ai-config-hooks.ts:24-34 | The record has id `default`, updatedAt now, createdAt kept from an existing record, and each field taken from the update, else from the existing record, else `openai`/empty |
| AiConfig.EmptyUpdateKeepsFields | src/lib/ai-config-hooks.ts:27-34 | An update carrying nothing only refreshes updatedAt |
| AiConfig.MergeTwice | src/lib/ai-config-hooks.ts:27-34 | Applying the same update again changes only updatedAt |
| AiConfig.HasValidConfig | src/lib/ai-config-hooks.ts:43-68 | Valid implies a record with a provider, a model, a key for non-ollama providers and the provider's key prefix; an ollama record with a model is valid |
| AiConfig.ConfigStore.Current | src/lib/ai-config-hooks.ts:12-20 | The config is the record under `default`, or none |
| AiConfig.ConfigStore.UpdateConfig | src/lib/ai-config-hooks.ts:22-37 | Only the `default` record changes, to the merged record |
| AiConfig.ConfigStore.ClearConfig | src/lib/ai-config-hooks.ts:39-41 | Only the `default` record is removed, after which no valid config exists |
| AiConfig.DialogModels | src/lib/ai-config-collection.ts:16-35 | The dialog offers four models for each known provider and none for any other |
| ModelCatalog.UpperAscii | src/lib/db.ts:62 | Lower-case ASCII letters become upper case; other characters are unchanged |
| ModelCatalog.Capitalize | src/lib/db.ts:62 | The first character is upper-cased and the rest is kept, at the same length |
| ModelCatalog.CapitalizeAll | src/lib/db.ts:62 | Every part is capitalized, in order |
| ModelCatalog.FormatModelName | src/lib/db.ts:46-64 | The four special ids get their fixed labels; any other id gets the generic label |
| ModelCatalog.GenericIsRelabel | src/lib/db.ts:60-63 | Split on `-`, capitalize and join with spaces equals the character-wise relabelling |
| ModelCatalog.GenericLabelShape | src/lib/db.ts:60-63 | A generic label has the id's length, contains no `-`, and has a space exactly where the id has a `-` or a space |
| ModelCatalog.Options | src/lib/db.ts:67-75 | One option per id, in order, with the id as value and its formatted name as label |
| ModelCatalog.ProviderValues | src/lib/db.ts:67-82 | The openai and anthropic lists keep the id tables' order and contents; ollama has four entries |
| ModelCatalog.ProviderModels | src/lib/db.ts:67-82 | The list is empty exactly for a provider other than openai, anthropic and ollama; the openai and anthropic lists carry the id tables' ids in order |
| SettingsForms.ValidateApiKey | src/routes/settings.tsx:73-86 | Any key is valid for ollama; otherwise an empty key is invalid, openai needs `sk-`, anthropic needs `sk-ant-`, and any other provider needs a non-empty key |
| SettingsForms.AnthropicKeyIsOpenAiKey | src/routes/settings.tsx:77-83 | A key accepted for anthropic is also accepted for openai |
| SettingsForms.StoredValidityMatchesForm | src/routes/settings.tsx:88 | For the three providers, the store's validity predicate agrees with the form's isValid |
| SettingsForms.ProviderName | src/routes/settings.tsx:109-120 | The three providers get their display names; any other string is returned unchanged |
| SettingsForms.ResetModel | src/routes/settings.tsx:63-70 | An offered model is kept; otherwise the first model of a non-empty table is taken; with a non-empty table the result is always offered |
| SettingsForms.ResetSettles | src/routes/settings.tsx:64-70 | The reset effect reaches a fixed point after one pass |
| SettingsForms.DialogChoiceResetOnPage | src/components/ai-settings-dialog.tsx:54-61 | A model the dialog offers is replaced when the settings page resets against its own table |
| SettingsForms.SettingsPage.constructor | src/routes/settings.tsx:47-51 | The form starts from the stored record, or from openai with an empty model and key |
| SettingsForms.SettingsPage.Sync | src/routes/settings.tsx:54-60 | A stored record replaces the three form fields; with none they stay |
| SettingsForms.SettingsPage.ResetModelEffect | src/routes/settings.tsx:63-70 | The model becomes the reset model for the provider's table; provider and key are unchanged |
| SettingsForms.SettingsPage.HandleSave | src/routes/settings.tsx:90-98 | A valid form writes the merged record; an invalid one leaves the store unchanged |
| SettingsForms.SettingsDialog.constructor | src/components/ai-settings-dialog.tsx:32-42 | The form starts from the stored record or the defaults, closed |
| SettingsForms.SettingsDialog.ResetModelEffect | src/components/ai-settings-dialog.tsx:53-61 | The model is reset against the dialog's table; nothing else changes |
| SettingsForms.SettingsDialog.HandleSave | src/components/ai-settings-dialog.tsx:79-91 | A valid form writes the merged record and closes the dialog; an invalid one changes nothing |
| SettingsForms.SavedFormIsValidConfig | src/routes/settings.tsx:88-98 | A save that goes through leaves a record that the store calls valid |
| ContentBundle.GetContent | src/lib/content-bundle.ts:16-37 | Null exactly for a missing path or an empty file; otherwise the trimmed body and the order metadata |
| ContentBundle.ContentIsTrimmed | src/lib/content-bundle.ts:20 | The returned body is already trimmed |
| ContentBundle.CourseFile | src/lib/content-bundle.ts:40-42 | getCourseMeta reads `../../content/<c>/course.mdx` |
| ContentBundle.LessonFile | src/lib/content-bundle.ts:57-62 | getLessonMeta reads a `lesson.mdx` under the course's lessons folder |
| ContentBundle.StepFile | src/lib/content-bundle.ts:77-85 | getStepContent reads a `step.mdx` under the lesson's steps folder |
| ContentBundle.Matching | src/lib/content-bundle.ts:47-49 | The filter keeps exactly the bundled paths with the prefix and suffix |
| ContentBundle.MatchingSingle | src/lib/content-bundle.ts:47-49 | One path is kept exactly when it has the prefix and the suffix |
| ContentBundle.MatchingAppend | src/lib/content-bundle.ts:47-49 | The filter keeps key order: the matches of a concatenation are the left part's followed by the right part's |
| ContentBundle.SegmentsAfter | src/lib/content-bundle.ts:50-53 | Each id is the whole first `/`-segment after the prefix: slash-free, and either all of the rest of the path or followed there by `/` |
| ContentBundle.LessonIds | src/lib/content-bundle.ts:45-54 | One id per matching `lesson.mdx`, in key order; each is the whole slash-free segment after the lessons folder, so the path continues with `/` after it or ends there |
| ContentBundle.StepIds | src/lib/content-bundle.ts:65-74 | One id per matching `step.mdx`, in key order; each is the whole slash-free segment after the steps folder, so the path continues with `/` after it or ends there |
| ContentBundle.SegmentOfBuiltPath | src/lib/content-bundle.ts:50-53 | A path built from a slash-free id gives that id back |
| ContentBundle.LessonIdsComplete | src/lib/content-bundle.ts:45-54 | Every lesson whose file is bundled is listed |
| ContentBundle.StepIdsComplete | src/lib/content-bundle.ts:65-74 | Every step whose file is bundled is listed |
| ContentBundle.CourseIdOf | src/lib/content-bundle.ts:96-97 | A non-empty id is one slash-free segment between `content/` and `/course.mdx` |
| ContentBundle.CourseIdOfCourseFile | src/lib/content-bundle.ts:96-97 | A course's own file gives back its id |
| ContentBundle.Entries | src/lib/content-bundle.ts:89-105 | Only paths with a non-empty, slash-free course id survive |
| ContentBundle.OrderOf | src/lib/content-bundle.ts:100-101 | A declared order is the sort key, a missing file or order sorts as 0, and a non-zero key is always the declared order |
| ContentBundle.EntriesSingle | src/lib/content-bundle.ts:89-105 | One path gives an entry exactly when its course id is non-empty, carrying that id and its order |
| ContentBundle.EntriesAppend | src/lib/content-bundle.ts:89-105 | The map and filters keep key order: the entries of a concatenation are the left part's followed by the right part's |
| ContentBundle.CourseListed | src/lib/content-bundle.ts:89-105 | A bundled `course.mdx` of a non-empty, slash-free course id gives that course's entry |
| ContentBundle.StableSortSorted | src/lib/content-bundle.ts:108 | The sorted courses are in ascending order |
| ContentBundle.StableSortStable | src/lib/content-bundle.ts:108 | Courses with equal order keep their key order |
| ContentBundle.StableSortPermutes | src/lib/content-bundle.ts:108 | The sort is a permutation of its input |
| ContentBundle.StableSort | src/lib/content-bundle.ts:108 | The sort as repeated insertion; StableSortSorted, StableSortStable and StableSortPermutes state its result |
| ContentBundle.InsertLast | src/lib/content-bundle.ts:108 | One pass moves an entry into its slot in the sorted prefix |
| ContentBundle.SortCourses | src/lib/content-bundle.ts:108 | The in-place sort of the array equals the stable sort of its contents |
| ContentBundle.CourseIds | src/lib/content-bundle.ts:88-111 | One id per matched course, in stable ascending order, and every course whose `course.mdx` is bundled is listed |
| StepNavigation.CurrentIndex | src/components/step-navigation.tsx:19 | findIndex returns the first match, or -1 exactly when no step has the id |
| StepNavigation.Navigate | src/components/step-navigation.tsx:19-38 | prev is `steps[i-1]` exactly when i > 0; next is `steps[i+1]` exactly when i+1 < length; the counter is i+1 of length; an absent id has no prev and its next is the first step |
| StepNavigation.NeighbourLink | src/components/step-navigation.tsx:25-42 | A link exists exactly when the neighbour does, and it is `/course/<course>/<item>/<neighbour id>` |
| StepNavigation.IndexOfDistinct | src/components/step-navigation.tsx:19 | With distinct ids a step's index is its position |
| StepNavigation.NextThenPrev | src/components/step-navigation.tsx:20-21 | Going next and then back returns to the same step |
| StepNavigation.PrevThenNext | src/components/step-navigation.tsx:20-21 | Going back and then next returns to the same step |
| SidebarLayout.InitialLayout | src/hooks/use-sidebar-layout.ts:15-40 | The stored layout is taken exactly when it passes the check in the browser, else the default; the result always passes the check |
| SidebarLayout.DefaultInRange | src/hooks/use-sidebar-layout.ts:9-12 | The default layout passes the check |
| SidebarLayout.LayoutState.constructor | src/hooks/use-sidebar-layout.ts:15-40 | The initial state is the initial layout |
| SidebarLayout.LayoutState.SaveLayout | src/hooks/use-sidebar-layout.ts:42-57 | Fewer than two sizes change nothing; otherwise the first two become the layout and are stored, unchecked |
| SidebarLayout.SaveThenReload | src/hooks/use-sidebar-layout.ts:24-31 | A saved layout comes back after a reload exactly when it is in range, and the default comes back otherwise |
| CourseCard.CountKind | src/components/course-card.tsx:11-12 | The count is at most the number of items and is 0 exactly when no item has the kind |
| CourseCard.CountsPartition | src/components/course-card.tsx:11-12 | Lesson and project counts add up to the number of items |
| CourseCard.CardCounts | src/components/course-card.tsx:11-12 | The card's counts cover the items exactly |
| CourseCard.CardLink | src/components/course-card.tsx:13-17 | The link is `#` exactly when there is no first step, and otherwise the first item's first step |
| CourseCard.CountLabel | src/components/course-card.tsx:27 | The singular word is shown exactly when the count is 1 |
| CourseCard.LessonLabel | src/components/course-card.tsx:27 | `Lesson` exactly for one lesson, `Lessons` otherwise |
| CourseCard.ProjectLabel | src/components/course-card.tsx:31 | `Project` exactly for one project, `Projects` otherwise |
| CourseData.StepPath | src/components/course-card.tsx:17 | Step routes start with `/course/` |
| Encoding.HexRoundTrip | src/lib/auth.ts:53-64 | Decoding the hex text of bytes gives back the bytes |
| Encoding.HexHasNoColon | src/lib/auth.ts:53 | Hex text contains no `:` |
| Encoding.Base64RoundTrip | src/lib/auth.ts:35-79 | Decoding the base64 text of bytes gives back the bytes |
| Encoding.Base64Of32 | src/lib/auth.ts:33-36 | 32 bytes encode to 44 characters |
| Encoding.HexEncode | src/lib/auth.ts:53 | Two characters per byte; HexRoundTrip and HexHasNoColon state its partner and alphabet |
| Encoding.HexDecode | src/lib/auth.ts:63-64 | At most one byte per two characters; HexRoundTrip makes it the inverse of HexEncode |
| Encoding.Base64Encode | src/lib/auth.ts:35 | Four characters per started group of three bytes; Base64RoundTrip and Base64Of32 state its partner and the key length |
| Encoding.Base64Decode | src/lib/auth.ts:79 | The inverse of Base64Encode, as Base64RoundTrip states |
| Auth.GetMasterKey | src/lib/auth.ts:19-27 | Throws exactly when the secret is missing or empty; otherwise scrypt of the secret under the fixed salt, 32 bytes |
| Auth.MasterKeyLength | src/lib/auth.ts:26 | The master key is 32 bytes |
| Auth.GenerateUserEncryptionKey | src/lib/auth.ts:33-36 | The key is 44 characters and decodes back to the 32 random bytes |
| Auth.Envelope | src/lib/auth.ts:53 | The envelope is the three hex fields joined by `:`, with its length |
| Auth.EnvelopeFields | src/lib/auth.ts:53-61 | Splitting an envelope on `:` gives exactly its three fields |
| Auth.EnvelopeIvField | src/lib/auth.ts:44-53 | With a 16-byte IV the first field is 32 hex digits |
| Auth.Encrypt | src/lib/auth.ts:78-90 | A key that is not 32 bytes fails exactly; otherwise the envelope of the sealed text |
| Auth.Decrypt | src/lib/auth.ts:95-109 | Fewer than three fields or a wrong key length fail; otherwise the unsealed text of the decoded fields |
| Auth.EncryptDecrypt | src/lib/auth.ts:42-73 | Decrypting an envelope gives back the encrypted text |
| Auth.ExtraFieldsIgnored | src/lib/auth.ts:61 | Fields after the third do not change the result |
| Auth.EncryptUserKey | src/lib/auth.ts:42-54 | Fails without a secret; otherwise encrypts under the master key |
| Auth.DecryptUserKey | src/lib/auth.ts:59-73 | Fails without a secret; otherwise decrypts under the master key |
| Auth.UserKeyRoundTrip | src/lib/auth.ts:42-73 | With a secret, wrapping a user key succeeds and unwrapping gives it back |
| Auth.EncryptApiKey | src/lib/auth.ts:78-90 | Fails with a key-length error exactly when the user key does not decode to 32 bytes; otherwise the result is the encryption under the decoded key |
| Auth.DecryptApiKey | src/lib/auth.ts:95-109 | A text with fewer than two fields is malformed; with two or more, a user key not decoding to 32 bytes is a key-length error, and otherwise the result is the decryption under the decoded key |
| Auth.ApiKeyRoundTrip | src/lib/auth.ts:78-109 | An API key wrapped under a generated user key unwraps to itself |
| ProgressApi.StepRowId | src/lib/progress-api.ts:33 | Step and chat rows are `userId:courseId:itemId:stepId` |
| ProgressApi.LessonRowId | src/lib/progress-api.ts:103 | Lesson rows are `userId:courseId:itemId` |
| ProgressApi.VisitRowId | src/lib/progress-api.ts:207 | Visit rows are `userId:courseId` |
| ProgressApi.StepRowIdParts | src/lib/progress-api.ts:33 | A step row id built from colon-free ids splits back into them |
| ProgressApi.LessonRowIdParts | src/lib/progress-api.ts:103 | A lesson row id built from colon-free ids splits back into them |
| ProgressApi.VisitRowIdParts | src/lib/progress-api.ts:207 | A visit row id built from colon-free ids splits back into them |
| ProgressApi.StepRowIdsCollide | src/lib/progress-api.ts:33 | Two different id tuples can name the same row when an id contains `:` |
| ProgressApi.StepProgressOf | src/lib/progress-api.ts:23-38 | The row under the step's id, or null exactly when there is none; StepReadsBack relates it to the writes |
| ProgressApi.StepReadsBack | src/lib/progress-api.ts:23-89 | Reading a step after an upsert gives a row with the written completion, its stamp and the update time; after a delete, null |
| ProgressApi.UpsertStep | src/lib/progress-api.ts:54-73 | The row is completed as given, completedAt is now exactly when completed, updatedAt is now, an existing row keeps its other columns, and no other row changes |
| ProgressApi.UpsertStepKeepsStamps | src/lib/progress-api.ts:63-70 | Upserts preserve the invariant that completedAt is set exactly on completed rows |
| ProgressApi.DeleteStep | src/lib/progress-api.ts:88-89 | Only the row with the step's id is removed |
| ProgressApi.UpsertThenDeleteStep | src/lib/progress-api.ts:54-89 | Deleting a step row that an upsert created restores the table |
| ProgressApi.CourseStepRows | src/lib/progress-api.ts:164-179 | Exactly the rows whose user and course columns match |
| ProgressApi.UpsertedStepListed | src/lib/progress-api.ts:54-179 | An upserted step row is listed for its user and course |
| ProgressApi.LessonProgressOf | src/lib/progress-api.ts:94-108 | The row under the lesson's id, or null exactly when there is none |
| ProgressApi.UpsertLesson | src/lib/progress-api.ts:124-144 | As for steps, and manuallySet is the supplied value or false on insert and on update alike |
| ProgressApi.OmittedManualFlagClears | src/lib/progress-api.ts:140 | Leaving manuallySet out clears a stored manual mark |
| ProgressApi.DeleteLesson | src/lib/progress-api.ts:158-159 | Only the row with the lesson's id is removed |
| ProgressApi.CourseLessonRows | src/lib/progress-api.ts:181-196 | Exactly the lesson rows whose user and course columns match, unchanged; UpsertedLessonListed relates it to the writes |
| ProgressApi.UpsertedLessonListed | src/lib/progress-api.ts:124-196 | An upserted lesson row is listed for its user and course with the written completion |
| ProgressApi.CourseVisitOf | src/lib/progress-api.ts:199-212 | The row under the visit id, or null exactly when there is none |
| ProgressApi.UpsertVisit | src/lib/progress-api.ts:214-249 | The row records the last item and step and the time; a new row carries the visit id, user and course, an existing row keeps them; no other row changes |
| ProgressApi.VisitReadsBack | src/lib/progress-api.ts:199-249 | The visit read after an update names the step just recorded |
| ProgressApi.StepChatsOf | src/lib/progress-api.ts:394-409 | The stored messages, or none when the row is missing |
| ProgressApi.UpsertChat | src/lib/progress-api.ts:411-445 | The row stores the messages and the time; a new row carries the step id and its four key columns, an existing row keeps them; no other row changes |
| ProgressApi.DeleteChat | src/lib/progress-api.ts:457-458 | Only the chat row with the step's id is removed |
| ProgressApi.ChatSaveDeleteRead | src/lib/progress-api.ts:394-460 | Saved messages read back as saved; after a delete none are read |
| ProgressApi.OrNull | src/lib/progress-api.ts:319-320 | The null fallback keeps a non-empty text and turns an empty or missing one into null |
| ProgressApi.StoredApiKey | src/lib/progress-api.ts:265-270 | Without both stored fields the key is null; with both, an unwrap or decrypt error is propagated, and otherwise the key is the API key decrypted with the unwrapped user key |
| ProgressApi.UserSettingsOf | src/lib/progress-api.ts:252-276 | Null without a row; with a row, an error of the key decryption is propagated, and otherwise the result is the row with its decrypted API key |
| ProgressApi.UserKeyFor | src/lib/progress-api.ts:296-307 | A stored wrapped key is reused unchanged with its unwrapped key; without one a fresh key is generated and wrapped |
| ProgressApi.NewEncryptedApiKey | src/lib/progress-api.ts:310-312 | A given key is encrypted under the user key; otherwise the stored encrypted key is kept, with empty becoming null |
| ProgressApi.UpdatedSettings | src/lib/progress-api.ts:287-334 | Provider and model are stored as given or null, the wrapped key is always present and reused when stored, the encrypted key is kept when no key is given, and id and user columns are kept |
| ProgressApi.SavedApiKeyReadsBack | src/lib/progress-api.ts:252-337 | After saving a non-empty API key, getUserSettings decrypts exactly that key |
| ProgressApi.SaveWithoutApiKeyKeepsIt | src/lib/progress-api.ts:310-312 | Saving without an API key keeps the key that getUserSettings reads |
| ProgressApi.Rotate | src/lib/progress-api.ts:351-391 | Nothing to rotate exactly when a stored field is missing; otherwise only the two keys and updatedAt change |
| ProgressApi.RotationPreservesApiKey | src/lib/progress-api.ts:365-388 | Under a sound cipher, rotation leaves the API key that getUserSettings decrypts unchanged |
| ProgressApi.ServerDb.UpdateStepProgress | src/lib/progress-api.ts:40-76 | The step table becomes the upserted one and the other tables are unchanged |
| ProgressApi.ServerDb.DeleteStepProgress | src/lib/progress-api.ts:78-91 | Only the step row is removed and the other tables are unchanged |
| ProgressApi.ServerDb.UpdateLessonProgress | src/lib/progress-api.ts:110-147 | The lesson table becomes the upserted one and the other tables are unchanged |
| ProgressApi.ServerDb.DeleteLessonProgress | src/lib/progress-api.ts:149-161 | Only the lesson row is removed and the other tables are unchanged |
| ProgressApi.ServerDb.UpdateCourseVisit | src/lib/progress-api.ts:214-249 | The visit table becomes the upserted one and the other tables are unchanged |
| ProgressApi.ServerDb.SaveStepChats | src/lib/progress-api.ts:411-445 | The chat table becomes the upserted one and the other tables are unchanged |
| ProgressApi.ServerDb.DeleteStepChats | src/lib/progress-api.ts:447-460 | Only the chat row is removed and the other tables are unchanged |
| ProgressApi.SettingsRowFor | src/lib/progress-api.ts:287-334 | Reusing or generating the user key, encrypting or keeping the API key and assembling the row, step by step, yields exactly the row or error of UpdatedSettings |
| ProgressApi.ServerDb.UpdateUserSettings | src/lib/progress-api.ts:278-337 | The user's row becomes the updated settings; a throw writes nothing; the other tables are unchanged |
| ProgressApi.ServerDb.DeleteUserSettings | src/lib/progress-api.ts:339-348 | Only the user's settings row is removed |
| ProgressApi.ServerDb.RotateUserEncryptionKey | src/lib/progress-api.ts:351-391 | The result is the rotation, and the row is written only when the rotation goes through |

## Left out

- The cryptographic primitives are abstract functions. AES-256-GCM (NIST SP 800-38D), scrypt (RFC 7914) and `randomBytes` are library calls. The model does not capture their security or the freshness of IVs, and random bytes are parameters.
- Encryption is one abstract seal call. The `cipher.update`/`cipher.final` accumulation in `src/lib/auth.ts:47-48` and utf-8 conversion are inside it.
- Unsealing is abstract. The checks of the IV and tag lengths happen inside `createDecipheriv` and `setAuthTag`.
- The better-auth configuration in `src/lib/auth.ts:111-123` is library wiring.
- Encoding.Base64Decode: decodes only whole groups of four characters and stops at the first bad group. Node's lenient handling of whitespace, missing padding and URL-safe characters is not modelled, because the code only decodes text it produced itself.
- `Encoding.HexDecode` stops at the first pair that is not two hex digits. Node does the same; a trailing odd digit is dropped.
- `streamChat` (`src/lib/progress-api.ts:463-549`) is network streaming to AI providers. So are `src/components/step-chat.tsx`, `src/lib/client-chat.ts` and `src/routes/api/chat.ts`.
- `useTrackVisit` and `useLastVisit` (`src/lib/progress-hooks.ts:158-183`) are left out. They are a single insert into, and a newest-first read from, a collection keyed by course id. The server upsert `ProgressApi.UpsertVisit` models the same write.
- Rendering, JSX and React effect scheduling are not modelled. Effects are methods the caller runs; live queries are inputs or functions of the collections.
- Front-matter parsing and the file system are left out. gray-matter is a function of the raw text inside the `Bundle` value. `src/lib/mdx-loader.ts` is not part of this model.
- `JSON.parse`, `JSON.stringify` and localStorage failures are reduced to a `Stored` value: nothing, unparsable, or parsed.
- ProgressHooks.Percentage: `Math.round` of a floating-point quotient is modelled as exact round-half-up on integers. Floating-point error at exact halves is not captured.
- ProgressHooks.ProgressCollections.ToggleStep: an insert into the TanStack collection is modelled as an upsert. The collection's behaviour on a duplicate key is not captured.
- ProgressHooks.ProgressCollections.AutoLessonComplete: the `insert` of the auto record is modelled as an overwrite. When the effect runs again after its own insert, the record is already there, and the collection's behaviour on that duplicate key is not captured. The library that defines it is not part of this model.
- AiConfig.ConfigStore.UpdateConfig: the `insert` of the `default` record is modelled as an overwrite. Every save after the first inserts onto an existing key, and the collection's behaviour on that duplicate key is not captured.
- Auth.Decrypt: an envelope whose IV field is empty or malformed and a key of the wrong length together give `InvalidKeyLength`. `createDecipheriv` may reject the IV first; both paths throw and only the error kind may differ.
- ModelCatalog.UpperAscii: `toUpperCase` is modelled for ASCII letters only. Characters outside ASCII are left unchanged.
- Object prototype keys (`toString` and the like) in the JavaScript maps are not modelled.
- Chat rows on the server hold typed chat messages. The server accepts `z.any()` there.
- ProgressApi.ServerDb.UpdateUserSettings: the settings table is keyed by user id. The source reads by the `userId` column and upserts on `id`, and it writes both as the user id.
- Sidebar sizes are `real` numbers. A non-number size in storage is an opaque non-number.
- Ids under `lessons/` are taken from the first path segment. A file `lessons/lesson.mdx` sitting directly in the lessons folder yields the id `lesson.mdx`; the model reproduces this and does not single it out.
