# Discord bot template: error pipeline, guards and example commands in Dafny

This project models the parts of the NestJS Discord bot template that carry
real logic, and proves properties of them:

- **the error pipeline.**
  - `InteractionError`: the error whose message is meant for the user.
  - `fromError`: classifies any thrown value. Three platform error codes have their own texts; anything else gets a generic text.
  - `reply`: reports an error on an interaction. It edits the reply of an interaction already deferred or answered, sends an ephemeral reply to a fresh one, and only logs when the interaction cannot be replied to.
  - The catch-all exception filter: decides whether to log, then delegates to `reply` or answers an HTTP request.
- **the two permission guards**, which let a command run or raise an `InteractionError` naming the missing permissions.
- **the poll command.**
  - Polls are stored in a map keyed by the creating interaction's id.
  - Button votes allow one vote per user; a revote overwrites the earlier one.
  - The description lists vote counts and marks the winners.
  - A timer ends the poll.
- **the `/config` commands**: one insertion-ordered key/value store, viewed as JSON and updated in place by set, delete and clear.
- **the `/search` command**: a fixed dataset searched ignoring case, with autocomplete on both options.
- **the blog select menus**: the author menu, a chosen author's post menu and a chosen post.
- **the string utilities**:
  - `toKebab`, `toPascal` and `toCamel`, as the application defines them and as the scaffolding scripts define them;
  - the scripts' `escapeForStringLiteral`.

The platform SDK is reduced to values:
- An interaction is its lifecycle flags.
- Every call the code makes (reply, edit reply, log, HTTP response) is an `Action` in a returned trace.
- Whether an SDK call rejects is a parameter of `reply`, of the exception filter and of the three poll handlers, where a rejection decides what is stored or sent.

Classes model the state the source updates in place:
- `PollCommand.polls`;
- `ConfigCommand.entries`, a JavaScript `Map` kept as its sequence of entries.

Everything else is functions over datatypes. Loops in the source (`votes.find` with its upsert, the final autocomplete filter) are methods proved against the functions that specify them.

Some behaviours of the code are easy to misread, and the model follows the code in each:
- **InteractionErrors raised inside an interaction are logged.** `shouldLog` returns true early only outside interactions; inside one it falls through to its final `return true`. The lemma `AppExceptionFilter.IntentionalErrorInInteractionIsLogged` states this.
- **The HTTP body carries the exception's own message.** For an exception without `getResponse`, the body's message is the exception's own message, or `String(exception)` when that is empty.
- **Expected platform errors are not logged in any context that has one, HTTP included.** The three expected codes are suppressed wherever a context is present.
- **The Missing Access text is "I don't have access to that something."**

## Model

| member | source | states |
|---|---|---|
| InteractionErrors.NewInteractionError | src/common/errors/interaction-error.ts:13-19 | the error keeps both messages; its Error message is the internal message when that is non-empty, the user message otherwise |
| InteractionErrors.FromError | src/common/errors/interaction-error.ts:21-43 | an InteractionError passes through unchanged. Platform codes 50013, 50001 and 10008 get their fixed texts, and any other value gets "Something went wrong.". The internal message is the value's own message (an Error) or its string form (anything else) |
| InteractionErrors.FromErrorIdempotent | src/common/errors/interaction-error.ts:22 | classifying an already classified error changes nothing |
| InteractionErrors.FromErrorUserMessageNonEmpty | src/common/errors/interaction-error.ts:23-37 | a value that is not an InteractionError always gets one of the four fixed, non-empty user texts |
| InteractionErrors.LoggedText | src/common/errors/interaction-error.ts:59-64 | the error log of a non-repliable interaction is never empty: it is the error's message, internal before user, or the bare name `InteractionError` when both are empty |
| InteractionErrors.CountsOfConcat | src/common/errors/interaction-error.ts:45-66 | reply attempts and error logs of a trace add up over concatenation |
| InteractionErrors.ReplyEffects | src/common/errors/interaction-error.ts:45-66 | a repliable interaction gets exactly one reply attempt: an edit when it was deferred or replied to, an ephemeral reply otherwise. A non-repliable one gets none, only a warning and an error log. Exactly one error is logged when the SDK call fails or the interaction is not repliable, and none otherwise |
| InteractionErrors.Reply | src/common/errors/interaction-error.ts:45-66 | the calls made are exactly those of the reply specification |
| AppExceptionFilter.ShouldLog | src/common/filters/app-exception.filter.ts:10-37 | nothing is logged exactly when the exception is a platform error with one of the three expected codes, raised where a context is present; an InteractionError is always logged |
| AppExceptionFilter.LogText | src/common/filters/app-exception.filter.ts:43 | the logged text is the exception's message when it has one and its string form otherwise; an InteractionError always logs a non-empty text |
| AppExceptionFilter.HttpStatus | src/common/filters/app-exception.filter.ts:62-63 | the status is the exception's own when it has `getStatus`, and 500 otherwise |
| AppExceptionFilter.HttpBodyOf | src/common/filters/app-exception.filter.ts:65-68 | the exception's own response exactly when it has `getResponse`; otherwise `{statusCode, message}` with the status sent and the exception's message or string form, so 500 for anything that is not an HTTP exception |
| AppExceptionFilter.CatchEffects | src/common/filters/app-exception.filter.ts:39-72 | the log call, when there is one, comes first. An interaction then gets exactly the reply behaviour, so at most one reply attempt. An HTTP caller gets the exception's own status or 500, and its own response or `{statusCode, message}`. An unusable necord context makes the handler reject, and other hosts get nothing more |
| AppExceptionFilter.Catch | src/common/filters/app-exception.filter.ts:39-72 | the calls made, and whether the handler rejects, are exactly those of the catch specification |
| AppExceptionFilter.IntentionalErrorInInteractionIsLogged | src/common/filters/app-exception.filter.ts:25-36 | an InteractionError on a fresh interaction is logged and then replied to ephemerally with its user message |
| AppExceptionFilter.MissingPermissionsOnRepliedInteraction | src/common/filters/app-exception.filter.ts:29-32 | a Missing Permissions platform error on an answered interaction produces one edit with its fixed text and no log |
| AppExceptionFilter.PlainErrorOverHttp | src/common/filters/app-exception.filter.ts:59-71 | an ordinary Error over HTTP is logged and answered with 500 and its own message |
| PermissionGuards.Missing | src/common/guards/require-bot-permission.guard.ts:46-47 | the missing flags are exactly the flags walked that are required and not granted, never more than were walked |
| PermissionGuards.MissingConcat | src/common/guards/require-bot-permission.guard.ts:46-47 | `missing` keeps the order of the flags it walks: over two joined flag lists it is the two results joined |
| PermissionGuards.MissingOne | src/common/guards/require-member-permission.guard.ts:43-46 | a single flag is listed exactly when it is required and not granted |
| PermissionGuards.MissingList | src/common/guards/require-bot-permission.guard.ts:48-49 | the rendered list is empty exactly when no flag is missing |
| PermissionGuards.DenialMessage | src/common/guards/require-bot-permission.guard.ts:44-53 | the message starts with the fixed text. It is followed by the missing list exactly when the member manages the guild and the list is non-empty |
| PermissionGuards.BotGuard | src/common/guards/require-bot-permission.guard.ts:24-58 | the bot guard denies exactly when the check applies and the bot's channel permissions are null or lack a required flag. A denial raises only the fixed text unless the member manages the guild, and never has an internal message |
| PermissionGuards.MemberGuard | src/common/guards/require-member-permission.guard.ts:24-55 | the member guard denies exactly when a non-empty requirement applies in a guild channel and the member's permissions are null or lack a required flag. Only a member who manages the guild is told more than the fixed text |
| PermissionGuards.MemberDenialListsMissing | src/common/guards/require-member-permission.guard.ts:39-51 | a denied member who manages the guild is told exactly the required flags they lack, and that list is never empty |
| PermissionGuards.BotDenialListsMissing | src/common/guards/require-bot-permission.guard.ts:42-54 | when the bot's permissions are known, such a member is told the non-empty list of flags the bot lacks |
| PermissionGuards.MissingListMentions | src/common/guards/require-bot-permission.guard.ts:48-49 | every missing flag appears in the message, in backticks |
| Ascii.JoinContainsPart | src/common/guards/require-bot-permission.guard.ts:49 | every part of a joined list occurs in the joined text |
| Polls.EffectiveDuration | src/commands/handlers/select/poll.command.ts:111 | a missing or empty duration becomes "1m"; any other is kept |
| Polls.PresentChoices | src/commands/handlers/select/poll.command.ts:126 | the choices are exactly the given non-empty options, none of them empty |
| Polls.PresentChoicesConcat | src/commands/handlers/select/poll.command.ts:126 | the filter keeps the options' order and every repeated option: over two joined option lists it is the two results joined |
| Polls.PresentChoicesOne | src/commands/handlers/select/poll.command.ts:126 | a single option is kept exactly when it is present and non-empty |
| Polls.ChoicesInOrder | src/commands/handlers/select/poll.command.ts:126 | the choices are choice1 to choice5 in that order, each kept exactly when it is present and non-empty |
| Polls.Buttons | src/commands/handlers/select/poll.command.ts:129-131 | one button per choice, in order, captioned with it, whose id `poll/<poll>/<index>` carries the poll id and the choice's index |
| Polls.NewPoll | src/commands/handlers/select/poll.command.ts:111-141 | an unparsable or zero duration and an out-of-range duration give their two errors. A poll is created exactly when the duration is between 10 seconds and 7 days. It has no votes and ends that long after now |
| Polls.FirstVoteOf | src/commands/handlers/select/poll.command.ts:195 | the index found is that of the user's first vote, and no index means the user has not voted |
| Polls.Upserted | src/commands/handlers/select/poll.command.ts:195-200 | after a vote the user holds exactly one vote, for the chosen index. A revote keeps the count, a first vote is appended, other users' votes are untouched, and one vote per user is kept |
| Polls.UpsertVote | src/commands/handlers/select/poll.command.ts:195-200 | the search-then-overwrite-or-append loop computes exactly the upserted votes |
| Polls.CastVote | src/commands/handlers/select/poll.command.ts:178-200 | the four checks come in the source's order (index, poll, closed, choice), each with its own error. A vote is accepted exactly when the index parses, the poll exists and is open, and the index names a non-empty choice; it is then recorded by the upsert |
| Polls.OpenAtEndTime | src/commands/handlers/select/poll.command.ts:186 | a poll still takes votes at the very millisecond it ends |
| Polls.VoteCount | src/commands/handlers/select/poll.command.ts:214 | a choice never has more votes than the poll |
| Polls.MaxCount | src/commands/handlers/select/poll.command.ts:212-220 | bounds every choice's vote count |
| Polls.MaxCountAttained | src/commands/handlers/select/poll.command.ts:212-220 | a positive maximum is the count of some choice |
| Polls.Top | src/commands/handlers/select/poll.command.ts:212-220 | holds exactly the choices with the given count |
| Polls.TopEmptyAbove | src/commands/handlers/select/poll.command.ts:212-220 | no choice has more votes than the maximum |
| Polls.WinnersFrom | src/commands/handlers/select/poll.command.ts:212-220 | the reduce only ever holds choices it has seen, and it is never empty once a choice has been seen from a zero maximum |
| Polls.Winners | src/commands/handlers/select/poll.command.ts:212-220 | every winner is a choice, and a poll with at least one choice has a winner |
| Polls.WinnersFromTop | src/commands/handlers/select/poll.command.ts:212-220 | the reduce, resumed at any point with the running maximum, ends with the choices that have the overall maximum |
| Polls.WinnersAreMaximal | src/commands/handlers/select/poll.command.ts:212-220 | the winners are exactly the choices with the most votes, in order |
| Polls.TopOfZero | src/commands/handlers/select/poll.command.ts:212-220 | with no vote on any choice, every choice has the top count |
| Polls.NoVotesAllWin | src/commands/handlers/select/poll.command.ts:212-220 | a poll without votes has every choice as a winner |
| Polls.VoteWord | src/commands/handlers/select/poll.command.ts:228 | "vote" exactly for one vote, "votes" otherwise, zero included |
| Polls.DescriptionLines | src/commands/handlers/select/poll.command.ts:223-230 | one line per choice |
| Polls.PollDescription | src/commands/handlers/select/poll.command.ts:223-230 | a poll without choices has an empty description; otherwise every choice's line occurs in it |
| Polls.DescriptionLine | src/commands/handlers/select/poll.command.ts:221-229 | line i shows choice i numbered from 1 with its count. When winners are shown, it carries the tie or trophy icon exactly when the choice has the most votes |
| Polls.PollCommand.constructor | src/commands/handlers/select/poll.command.ts:98 | the command starts with no polls |
| Polls.PollCommand.HandlePoll | src/commands/handlers/select/poll.command.ts:107-170 | a rejected duration leaves the polls unchanged. Otherwise the new poll is stored under the interaction id. If the reply then rejects, the handler rejects with that error, no timer is set, and the poll stays stored. Otherwise the reply carries the question as title, the description and the buttons, and a timer named `poll/<id>` is set for the duration. Every stored poll stays well formed |
| Polls.PollCommand.HandlePollVote | src/commands/handlers/select/poll.command.ts:173-209 | a failed check leaves the polls unchanged. Otherwise only the voted poll changes, by the upsert; if the message edit or the reply then rejects, the vote stays recorded and the handler rejects with that error, and otherwise the user is told the choice they voted for. One vote per user and valid choice indices are kept |
| Polls.PollCommand.EndPoll | src/commands/handlers/select/poll.command.ts:156-168 | a poll already gone is left alone. A stored poll is shown with its winners and removed only when fetching and editing its message both succeed; if either rejects, the poll stays stored and the callback rejects with that error. Other polls are untouched |
| Config.AsMap | src/commands/handlers/config/config.command.ts:37 | the mapping's keys are exactly the stored keys |
| Config.DistinctConcat | src/commands/handlers/config/config.command.ts:37 | two entry lists join without repeated keys exactly when each has none and their keys are disjoint |
| Config.KeysConcat | src/commands/handlers/config/config.command.ts:37 | the keys of joined entry lists are the union of their keys |
| Config.SizeOfMap | src/commands/handlers/config/config.command.ts:44 | the store's size is its number of entries |
| Config.SetEntry | src/commands/handlers/config/config-set.command.ts:36 | the keys gain exactly that key. An existing key keeps its position and a new one goes last, so the size grows exactly when the key is new; the other entries are unchanged |
| Config.SetEntryStore | src/commands/handlers/config/config-set.command.ts:36 | after a set, the store maps the key to the value and every other key as before |
| Config.SetEntryDistinct | src/commands/handlers/config/config-set.command.ts:36 | a set never repeats a key |
| Config.DeleteEntry | src/commands/handlers/config/config-delete.command.ts:29 | the mapping loses exactly that key, and a store stays free of repeated keys. The size drops by one exactly when the key was present, and an absent key changes nothing |
| Config.DeleteEntryAt | src/commands/handlers/config/config-delete.command.ts:29 | deleting the key at position i removes exactly entry i and keeps the others in their order |
| Config.DeleteIdempotent | src/commands/handlers/config/config-delete.command.ts:29 | deleting a key twice is deleting it once |
| Config.AssignAll | src/commands/handlers/config/config.command.ts:50-56 | the object ends up with its own keys and every assigned key, and assigning never repeats a key |
| Config.ConfigObject | src/commands/handlers/config/config.command.ts:50-56 | the rendered object has exactly the stored keys, none twice; for a store it is the store's entries in the store's order |
| Config.AssignAllFresh | src/commands/handlers/config/config.command.ts:50-56 | assigning distinct new keys appends them in order |
| Config.AssignAllAsWritten | src/commands/handlers/config/config.command.ts:50-56 | as written, the object gains every assigned key except `__proto__` |
| Config.ConfigObjectAsWritten | src/commands/handlers/config/config.command.ts:50-56 | as written, the rendered object has every stored key except `__proto__` |
| Config.ProtoKeyDropped | src/commands/handlers/config/config.command.ts:50-56 | as written, a store holding only the key `__proto__` is not empty, yet renders as `{}` |
| Config.Stringify | src/commands/handlers/config/config.command.ts:59 | the JSON text is `{}` exactly for an object without properties, and every property's indented `"key": "value"` text occurs in it |
| Config.JsonEscape | src/commands/handlers/config/config.command.ts:59 | an escaped string never holds a line break |
| Config.LinesOfBreak | src/commands/handlers/config/config.command.ts:59 | splitting at line breaks separates the text before a break from the text after it |
| Config.LinesOfJoin | src/commands/handlers/config/config.command.ts:59 | properties joined by `",\n"` split back into one line per property, each but the last ending in a comma |
| Config.StringifyLines | src/commands/handlers/config/config.command.ts:59 | for a non-empty object, "{" is the first line, property i is line i + 1 in order with a comma after all but the last, and "}" is the last line |
| Config.ConfigCommand.constructor | src/commands/handlers/config/config.command.ts:37 | the store starts empty |
| Config.ConfigCommand.HandleConfig | src/commands/handlers/config/config.command.ts:43-61 | the view is an error exactly when the store is empty, and the error points to `/config edit set`. Otherwise it shows every entry as two-space-indented JSON, in insertion order. The store is only read |
| Config.ConfigSetCommand.constructor | src/commands/handlers/config/config-set.command.ts:29 | the command shares the view command's store |
| Config.ConfigSetCommand.HandleConfigSet | src/commands/handlers/config/config-set.command.ts:35-38 | the shared store maps the key to the value and is otherwise unchanged, and grows exactly when the key is new. The reply names both |
| Config.ConfigDeleteCommand.constructor | src/commands/handlers/config/config-delete.command.ts:22 | the command shares the view command's store |
| Config.ConfigDeleteCommand.HandleConfigDelete | src/commands/handlers/config/config-delete.command.ts:28-31 | the shared store loses exactly the key, unchanged when it was absent, and the reply names the key |
| Config.ConfigClearCommand.constructor | src/commands/handlers/config/config-clear.command.ts:8 | the command shares the view command's store |
| Config.ConfigClearCommand.HandleConfigClear | src/commands/handlers/config/config-clear.command.ts:14-17 | the shared store is empty afterwards |
| Config.ClearThenView | src/commands/handlers/config/config.command.ts:44-48 | a view right after a clear reports the empty configuration |
| Search.CategoryItems | src/commands/handlers/search.command.ts:12-18 | a category has items exactly when it is one of the five dataset keys |
| Search.FilterIgnoringCase | src/commands/handlers/search.command.ts:59 | keeps exactly the items containing the search text, ignoring case |
| Search.FilterKeepsOrder | src/commands/handlers/search.command.ts:59 | the kept items are in input order |
| Search.FilterContaining | src/commands/handlers/search.command.ts:86 | keeps exactly the items containing the typed text, case-sensitively |
| Search.EmptySearchKeepsAll | src/commands/handlers/search.command.ts:55 | an empty search keeps every item |
| Search.SearchCategories | src/commands/handlers/search.command.ts:53-56 | the suggested categories are exactly the dataset keys containing the text, ignoring case |
| Search.SearchTerms | src/commands/handlers/search.command.ts:57-60 | an unknown category gives nothing; a known one gives exactly its items containing the text, ignoring case |
| Search.ResultsInDatasetOrder | src/commands/handlers/search.command.ts:55-59 | categories and items come in dataset order |
| Search.SearchTermsAsWritten | src/commands/handlers/search.command.ts:59 | as written, the lookup throws a TypeError exactly when the category names an inherited object property, and otherwise agrees with the own-key lookup |
| Search.OnSearch | src/commands/handlers/search.command.ts:99-109 | the command fails exactly when nothing is found, that is when the category is unknown or none of its items matches. The error names the term and the category; otherwise the reply lists the results in order |
| Search.ConstructorCategoryThrows | src/commands/handlers/search.command.ts:59-104 | the category "constructor" throws as written and the user sees "Something went wrong."; the intended result is the "No results found" error |
| Search.Collected | src/commands/handlers/search.command.ts:66-82 | no candidates for an unknown focused option, or for the term while the category is unset, empty or not text |
| Search.AsChoices | src/commands/handlers/search.command.ts:87 | each suggestion is named by its own value |
| Search.Suggestions | src/commands/handlers/search.command.ts:62-89 | the suggestions are exactly the candidates containing the typed text, case-sensitively, each named by its value |
| Search.TransformOptions | src/commands/handlers/search.command.ts:62-89 | collecting and then filtering yields exactly the specified suggestions |
| Search.KeepContaining | src/commands/handlers/search.command.ts:84-88 | the filtering loop computes exactly the case-sensitive filter |
| Search.FilterContainingSnoc | src/commands/handlers/search.command.ts:86 | the filter proceeds one item at a time |
| Search.ContainedChars | src/commands/handlers/search.command.ts:86 | a contained text only has characters of the text containing it |
| Search.Lacks | src/commands/handlers/search.command.ts:86 | a text without one of the search's characters does not contain it |
| Search.CaseSensitiveSuggestions | src/commands/handlers/search.command.ts:59-86 | an item that matches only when case is ignored is found by the search but never suggested |
| Search.LowerCaseTermHasNoSuggestion | src/commands/handlers/search.command.ts:59-86 | typing "react" in "frontend" finds "React" but does not suggest it |
| SelectBlog.PostLabel | src/commands/handlers/select/select-blog.command.ts:110 | a label never exceeds 100 characters: a short title is kept, and a long one is its first 97 characters plus "..." |
| SelectBlog.PostLabelIdempotent | src/commands/handlers/select/select-blog.command.ts:110 | labelling a label changes nothing |
| SelectBlog.PostLabelKeepsPrefix | src/commands/handlers/select/select-blog.command.ts:110 | a cut label agrees with its title on the 97 characters it keeps |
| SelectBlog.AuthorOptions | src/commands/handlers/select/select-blog.command.ts:63-69 | one option per author, in order, labelled with the name, valued by the id, described as `@username (email)` |
| SelectBlog.PostOptions | src/commands/handlers/select/select-blog.command.ts:107-114 | one option per post, in order, with a bounded label, the id as value and the author in the description |
| SelectBlog.PostOptionValuesDistinct | src/commands/handlers/select/select-blog.command.ts:111 | posts with different ids get different option values |
| SelectBlog.AuthorOptionValuesDistinct | src/commands/handlers/select/select-blog.command.ts:66 | authors with different ids get different option values |
| SelectBlog.SelectedAuthor | src/commands/handlers/select/select-blog.command.ts:82-125 | a missing author and an author without posts give their own errors, and the menu is produced exactly when the author is found with at least one post. It holds one option per post of that author, with the author's name as title and in the placeholder |
| SelectBlog.SelectedPost | src/commands/handlers/select/select-blog.command.ts:128-148 | the post view exists exactly when the post and its author are found, with each missing one giving its own error. The view shows the title, the author with the body, and both ids |
| Ascii.Lower | src/common/utils/string.utils.ts:6 | lower-casing keeps the length and maps each character on its own |
| Ascii.NatToString | src/commands/handlers/select/poll.command.ts:228 | a decimal rendering is non-empty, all digits, with more than one digit exactly from 10 on |
| Ascii.NatToStringInjective | src/commands/handlers/select/select-blog.command.ts:111 | different numbers render differently |
| Ascii.IntToStringInjective | src/commands/handlers/select/select-blog.command.ts:111 | different integers render differently |
| CaseConversion.WithoutDashes | src/common/utils/string.utils.ts:4 | the result holds no dash |
| CaseConversion.InsertDashes | src/common/utils/string.utils.ts:4 | after the dash insertion no lower-case letter or digit is directly followed by an upper-case letter. Only dashes were added, the first character is kept, and text without upper-case letters is unchanged |
| CaseConversion.InsertDashesIsDashed | src/common/utils/string.utils.ts:4 | the regex pass, which resumes after each match, puts a dash between every lower-case letter or digit and a directly following upper-case letter, and nowhere else |
| CaseConversion.DropSeps | src/common/utils/string.utils.ts:5 | what remains starts with a non-separator |
| CaseConversion.CollapseRuns | src/common/utils/string.utils.ts:5 | no whitespace or '_' is left |
| CaseConversion.CollapseRunsWithoutSeps | src/common/utils/string.utils.ts:5 | text without separators is unchanged |
| CaseConversion.DropSepsKeepsLast | src/common/utils/string.utils.ts:5 | dropping leading separators keeps a final non-separator |
| CaseConversion.DropSepsOfRun | src/common/utils/string.utils.ts:5 | a whole leading run is dropped and nothing more |
| CaseConversion.DropSepsOfPrefix | src/common/utils/string.utils.ts:5 | the text after a prefix ending in a non-separator is untouched |
| CaseConversion.RunBecomesOneDash | src/common/utils/string.utils.ts:5 | every maximal run of whitespace and '_' becomes exactly one '-' |
| CaseConversion.LowerKeepsNoSep | src/common/utils/string.utils.ts:6 | lower-casing creates no separator |
| CaseConversion.KebabOf | src/common/utils/string.utils.ts:1-6 | kebab case has no upper-case letter, whitespace or '_' |
| CaseConversion.ToKebab | src/common/utils/string.utils.ts:1-6 | the same for several joined inputs |
| CaseConversion.KebabIdempotent | src/common/utils/string.utils.ts:1-6 | kebab case of kebab case changes nothing |
| CaseConversion.Keep | src/common/utils/string.utils.ts:11 | keeps no delimiter |
| CaseConversion.DropDelims | src/common/utils/string.utils.ts:11 | dropping a leading delimiter run loses only delimiters |
| CaseConversion.FirstDelim | src/common/utils/string.utils.ts:11 | finds the first delimiter, or the end |
| CaseConversion.KeepConcat | src/common/utils/string.utils.ts:11 | dropping delimiters distributes over concatenation |
| CaseConversion.KeepAll | src/common/utils/string.utils.ts:11 | a delimiter-free text is kept whole |
| CaseConversion.SplitRuns | src/common/utils/string.utils.ts:11 | a split yields at least one piece, and no piece holds a delimiter |
| CaseConversion.SplitLosesOnlyDelims | src/common/utils/string.utils.ts:11 | the pieces, put back together, are the text without its delimiters |
| CaseConversion.SplitPiecesFromText | src/common/utils/string.utils.ts:11 | every character of a piece comes from the text |
| CaseConversion.Capitalize | src/common/utils/string.utils.ts:12 | the first character is upper-cased and the rest lower-cased |
| CaseConversion.CapitalizeAllAvoids | src/common/utils/string.utils.ts:12-13 | capitalizing creates no character outside the letters it maps |
| CaseConversion.PascalOf | src/common/utils/string.utils.ts:8-14 | Pascal case holds no dash, whitespace or '_' |
| CaseConversion.ToPascal | src/common/utils/string.utils.ts:8-14 | the same for several joined inputs |
| CaseConversion.PascalOfKebab | src/common/utils/string.utils.ts:16-18 | Pascal case of the kebab case is the Pascal case |
| CaseConversion.LowerFirst | src/common/utils/string.utils.ts:19 | only the first character is lowered |
| CaseConversion.ToCamel | src/common/utils/string.utils.ts:16-20 | camel case holds no dash, whitespace or '_' and never starts upper-case |
| CaseConversion.CamelIsLowerFirstPascal | src/common/utils/string.utils.ts:16-20 | camel case is Pascal case with its first character lowered, so it never starts upper-case |
| ScriptCase.ToPascal | scripts/script-utils.ts:14-19 | the scripts' Pascal case holds no '-', '_' or space |
| ScriptCase.ToCamel | scripts/script-utils.ts:21-24 | the scripts' camel case has the length of their Pascal case, does not start upper-case and agrees with it after the first character |
| ScriptCase.OnePiece | scripts/script-utils.ts:14-19 | a single input without delimiters is only capitalized |
| ScriptCase.CaseChangeIsNotABreak | scripts/script-utils.ts:14-19 | a case change is no word break here: in one input without delimiters, every upper-case letter after the first comes out lower-case ("fooBar" becomes "Foobar") |
| StringLiteral.ReplaceChar | scripts/script-utils.ts:30 | a text without the character is unchanged |
| StringLiteral.ReplaceCharConcat | scripts/script-utils.ts:30 | the global replacement distributes over concatenation |
| StringLiteral.Escape | scripts/script-utils.ts:30 | a text without backslashes or quotes is its own escape |
| StringLiteral.EscapeChar | scripts/utils/script-utils.ts:10 | a backslash doubles, a quote gets a backslash, and any other character stays |
| StringLiteral.EscapeIsPerChar | scripts/utils/script-utils.ts:10 | the two chained passes escape each character on its own, since the second pass's backslashes are not doubled |
| StringLiteral.EscapeLength | scripts/script-utils.ts:30 | each backslash and each quote adds exactly one character |
| StringLiteral.EscapeEachLength | scripts/utils/script-utils.ts:10 | the same for the per-character escape |
| StringLiteral.UnescapeEscape | scripts/script-utils.ts:30 | reading the literal back gives the original text |
| StringLiteral.UnescapeEscapeEach | scripts/utils/script-utils.ts:10 | the same for the per-character escape |
| StringLiteral.BackslashesBeforeInPrefix | scripts/utils/script-utils.ts:10 | text appended later does not change the backslash runs before a position |
| StringLiteral.EscapeEachConcat | scripts/utils/script-utils.ts:10 | the per-character escape distributes over concatenation |
| StringLiteral.AppendEscaped | scripts/utils/script-utils.ts:10 | appending one escaped character keeps every quote escaped and the trailing backslash run even |
| StringLiteral.EachQuoteEscaped | scripts/utils/script-utils.ts:10 | in the per-character escape every quote follows an odd backslash run, and the text ends after an even one |
| StringLiteral.QuotesStayEscaped | scripts/script-utils.ts:30 | in the escaped text no quote can end the literal, and a closing quote put after it is not escaped |

`escapeForStringLiteral` is the same one-line definition in both
`scripts/script-utils.ts` and `scripts/utils/script-utils.ts`. So is
`toKebab` in `scripts/script-utils.ts:7-12` and
`src/common/utils/string.utils.ts:1-6`. Each is modelled once.

## Left out

- `AppExceptionFilter.LogText`: stack traces are not modelled. Where the code logs `stack || message || String(x)`, the model logs `message || String(x)`.
- `InteractionErrors.LoggedText`: for the same reason, the `stack` term of `internalMessage || stack || message || String(error)` is not modelled.
- `AppExceptionFilter.ShouldLog`: `shouldLog` also catches failures of `host.getType()` and `host.getArgs()` and then logs. The model's host is a value that cannot fail, so that path is absent.
- `PermissionGuards.Has`: the platform's `has` also grants everything to an Administrator. The model's `has` is plain set inclusion, and the order of `missing` is the `flags` parameter.
- Case mapping and `\s` are ASCII only: Unicode case mapping and non-ASCII whitespace are not modelled.
- `SelectBlog.PostLabel` counts characters, where JavaScript counts UTF-16 code units. The two agree on text without astral characters.
- `Polls.PollCommand.HandlePoll`:
  - The `ms` duration parser is a parameter; its exception and its `NaN` are both `None`.
  - The footer `ms(durationMs, { long: true })` is not modelled.
  - The timer and the scheduler registry are reduced to the returned timer name and delay. The callback is the separate method `EndPoll`. Fetching and editing the message appear only through whether they reject (its `failure` parameter); the fetched message and its embed are not modelled.
- `Polls.PollCommand.HandlePollVote`: the poll id and the `parseInt` of the button's index are parameters (`None` for `NaN`); splitting the custom id `poll/<poll>/<index>` back into them is not modelled. The clock (`Date.now()`) is a parameter in both handlers.
- Votes are values: the in-place mutation of the stored poll object becomes a replacement of the map entry. The timer and the handlers read the poll back from the map, so no aliasing is lost.
- `SECOND` and `DAY` are taken as 1000 and 86400000 milliseconds. `time.constants.ts` is not part of this model.
- The 500 ms delays of the autocomplete lookups are not modelled.
- The author and post HTTP services are parameters (`Option` answers), and `Number(id)` parsing is folded into them. `handleSelectBlog` is modelled only through its menu options (`AuthorOptions`). The author embed's address, phone, website and company fields are not modelled.
- The platform's reply and edit calls, embeds and component builders appear only through the texts and actions they carry.
- `Config.Stringify` writes properties in insertion order. JavaScript lists integer-like keys first in ascending order; that reordering is not modelled.
- Concurrency is not modelled: handlers run one at a time.
- A rejected reply in the `/config`, `/search` and blog handlers is not modelled. It comes after any change to the store and only turns the handler's result into that rejection, which the exception filter receives like any other thrown value.
- A rejection that escapes a timer callback goes to the process-wide `unhandledRejection` logger; that logger is not part of this model.
- `Search.SearchTerms` and `Search.OnSearch` look the category up among the dataset's own keys. The code's inherited-property lookup is `Search.SearchTermsAsWritten` (see Findings).
- `Config.ConfigCommand.HandleConfig` renders the store through the corrected `ConfigObject`. The code's `__proto__` behaviour is `Config.ConfigObjectAsWritten` (see Findings).

## Findings

| source | as written | input that shows it | evidently intended | confidence | as-written member | corrected member |
|---|---|---|---|---|---|---|
| src/commands/handlers/search.command.ts:100 | `DATABASE[category]?.filter(...)` (line 100, and the same lookup in the autocomplete at line 59) looks the category up on a plain object, so a name inherited from `Object.prototype` finds a function or object without `filter`, and the call throws a TypeError | `/search` with category `constructor`: the filter reports "Something went wrong." | no results, and the "No results found for ... in category `constructor`" error | not executed | Search.SearchTermsAsWritten, Search.ConstructorCategoryThrows | Search.SearchTerms, Search.OnSearch |
| src/commands/handlers/config/config.command.ts:50-56 | the store is copied into a plain object with `obj[key] = value`; for key `__proto__` that calls the prototype setter, which ignores a string, so the entry is lost | `/config edit set key:__proto__ value:x`, then `/config view` shows `{}` although the store is not empty | the view lists every stored entry | not executed | Config.ConfigObjectAsWritten, Config.ProtoKeyDropped | Config.ConfigObject |
