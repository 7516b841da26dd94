# Poll app core in Dafny

This project models the rule set of a small Next.js polling app. The app has
two server actions, a validation schema, one read query and the values the
poll card derives for display:

- `createPoll` checks the session, drops blank option fields and validates
  the question and options. It then creates the poll and its options in one
  atomic store call, and finally refreshes "/" and redirects there.
- `submitVote` checks the session and the two identifiers. It then upserts
  the vote row keyed on (user, poll) and refreshes "/".
- `CreatePollSchema` holds the three validation rules and their messages.
- `getPolls` lists the polls newest first. Each option carries its vote
  count and each poll carries the viewer's own vote.
- `PollCard` and `VoteButton` compute the viewer's vote, the total, the
  per-option percentages, the "N vote(s)" label, the author fallback and
  the highlighted option.

The store is abstracted as a table of polls, each with its options, and the
vote table. The vote table is a map from (user, poll) to an option
identifier: the map shape is the one-row-per-pair uniqueness rule. The
store is the class `PollStore.Db`; its methods `Db.CreatePoll` and
`Db.UpsertVote` are the two store calls, and they update its fields in
place. The actions are the methods `Actions.CreatePoll` and
`Actions.SubmitVote`, which take the store and the route cache. Each is
proved equal to a pure step function over the store's contents
(`Actions.CreatePollStep`, `Actions.SubmitVoteStep`). What the actions
promise is then proved about those step functions.

Modules, one per file:

- `Wrappers`: the `Option` type.
- `JsString`: JavaScript's `trim` (the ECMA-262 white space and line
  terminator characters), `length` in UTF-16 code units, and `String(n)`
  for a non-negative integer.
- `FormData`: form entries as an ordered list, with `get`, `getAll` and
  `String(value)`.
- `Definitions`: the schema and its `safeParse`.
- `PollStore`: rows, identifiers, the upsert, vote counts and the `Db`
  class.
- `DataAccess`: `getPolls`.
- `PollCard`: the card's derived values and `isSelected`.
- `Actions`: the two server actions and the log of refreshed paths.
- `Consistency`: how the write side and the read side fit together.

Inputs the program gets from outside are parameters:

- the session (`auth()`) is an optional user identifier;
- the store's clock is `now`;
- a store call that throws is `fail: bool`;
- `revalidatePath` is an entry appended to `Actions.RouteCache.revalidated`.

Store identifiers are the decimal text of a counter, `nextId`. The store
invariant `PollStore.ValidTables` says that every identifier in use was
issued below `nextId` and that none was issued twice.

Two behaviours of the code are worth knowing:

- On success `createPoll` returns no identifier. It refreshes "/" and
  redirects there, and the model returns `Redirect("/")`.
- `submitVote` never checks that the option belongs to the poll, and the
  model records any non-empty option identifier.
  `Consistency.ForeignOptionVote` shows the consequence on both polls'
  cards.

## Model

| member | source | states |
|---|---|---|
| JsString.TrimStart | app/actions.ts:50 | the result is a suffix of the input; every dropped leading character is white space; the result does not start with white space |
| JsString.TrimEnd | app/actions.ts:50 | the result is a prefix of the input; every dropped trailing character is white space; the result does not end with white space |
| JsString.Trim | app/actions.ts:50 | `trim()` is no longer than its input, and a non-empty result neither starts nor ends with white space |
| JsString.TrimEmptyIffBlank | app/actions.ts:50 | `s.trim().length > 0` holds exactly when some character of `s` is not white space |
| JsString.Length | lib/definitions.ts:9-14 | the length the `min` rules measure is between the number of characters and twice that, and equals the number of characters when none is above U+FFFF |
| JsString.LengthOfChar | lib/definitions.ts:9-14 | one character counts 1 code unit, or 2 above U+FFFF |
| JsString.LengthConcat | lib/definitions.ts:9-14 | the length of a concatenation is the sum of the lengths, so with `LengthOfChar` a string's length is its number of UTF-16 code units |
| JsString.DecimalString | app/components/PollCard.tsx:76 | `String(n)` is a non-empty string of decimal digits with no leading zero; it starts with "0" exactly when n is 0 |
| JsString.ParseDecimalString | app/components/PollCard.tsx:76 | reading the decimal text of `n` back gives `n` |
| JsString.DecimalStringInjective | app/actions.ts:74-85 | different numbers have different decimal texts, so counter-issued identifiers never clash |
| FormData.Get | app/actions.ts:55 | `formData.get(name)` is absent exactly when no entry has that name; otherwise it is the value of the first such entry |
| FormData.GetAll | app/actions.ts:48 | `formData.getAll(name)` holds exactly the values of the entries with that name |
| FormData.GetAllConcat | app/actions.ts:47-48 | `getAll` over two runs of entries is the concatenation, so the values keep the order of the form |
| FormData.Stringify | app/actions.ts:49 | `String(value)` is the text of a text field and "[object File]" for a file |
| Definitions.QuestionIssues | lib/definitions.ts:9 | the question passes exactly when it is a string of length at least 3; otherwise it gets exactly one issue, not-a-string or too-short |
| Definitions.Message | lib/definitions.ts:9-15 | the three rules carry the schema's exact messages |
| Definitions.ShortOptionIssues | lib/definitions.ts:14 | exactly one "Option cannot be empty." issue per empty option (as many issues as empty options), and none when every option is non-empty |
| Definitions.OptionIssues | lib/definitions.ts:13-15 | the options pass exactly when there are at least 2 and none is empty; the count issue is reported exactly when there are fewer than 2, the empty-option issue exactly when some option is empty |
| Definitions.SafeParse | lib/definitions.ts:7-16 | success exactly when both fields pass, returning the question and options unchanged; otherwise the errors of both fields, reported independently |
| Definitions.QuestionBoundary | lib/definitions.ts:9 | a length-2 question is rejected, length 3 passes, three spaces pass (no trimming), an astral character counts as 2, and a missing question is not a string |
| Definitions.BothFieldsReported | lib/definitions.ts:7-16 | a short question with a single empty option reports issues under both `question` and `options` at once |
| Definitions.MessagesDistinct | lib/definitions.ts:9-15 | each rule has its own message |
| PollStore.NewPoll | app/actions.ts:74-85 | the created row has the given question, author and time, and one option per text with that text, in order |
| PollStore.NewPollKeepsIdsIssued | app/actions.ts:74-85 | numbering the new poll and its options from the counter keeps every identifier in the store unique and below the advanced counter |
| PollStore.Upsert | app/actions.ts:140-158 | the key maps to the new option, every other key is unchanged, and the table grows by one row only when the key is new |
| PollStore.UpsertIdempotent | app/actions.ts:140-158 | repeating the same upsert changes nothing |
| PollStore.VoteCount | lib/data-access.ts:29-31 | `_count.votes` is the number of vote rows naming the option: at most the number of rows, and 0 exactly when no row names it |
| PollStore.VotersOfBounds | lib/data-access.ts:29-31 | an option's voters are at most all vote rows, and there are none exactly when no row names the option |
| PollStore.UpsertVotersGain | app/actions.ts:140-158 | the chosen option's voters gain the upserted key |
| PollStore.UpsertVotersLose | app/actions.ts:140-158 | every other option's voters lose the upserted key |
| PollStore.UpsertMovesOneVote | app/actions.ts:140-158 | an upsert adds one to the chosen option's count unless the key already chose it, and takes one from the option the key chose before |
| PollStore.ApplyAllLastWins | app/actions.ts:140-158 | after any run of votes, a (user, poll) pair holds the option it was given last; pairs never voted on keep their row |
| PollStore.WithPoll | app/actions.ts:74-85 | a committed create appends exactly the new poll, keeps the store invariant and leaves votes and users alone |
| PollStore.WithVote | app/actions.ts:140-158 | a committed upsert changes only the vote table, by `Upsert` |
| PollStore.Db.CreatePoll | app/actions.ts:74-93 | the nested create commits the poll with all its options, or fails and leaves the store as it was |
| PollStore.Db.UpsertVote | app/actions.ts:140-163 | the upsert commits, or fails and leaves the store as it was |
| DataAccess.InsertByDate | lib/data-access.ts:14-16 | insertion makes the list one longer and puts either the new poll or the old head first; `InsertByDateSorted` and `InsertByDatePermutes` state the rest |
| DataAccess.InsertByDateSorted | lib/data-access.ts:14-16 | insertion keeps the list newest first |
| DataAccess.InsertByDatePermutes | lib/data-access.ts:14-16 | insertion adds exactly the inserted poll to the list's contents |
| DataAccess.SortByNewest | lib/data-access.ts:14-16 | `orderBy: createdAt desc` gives a newest-first permutation of the stored polls |
| DataAccess.ViewerVotes | lib/data-access.ts:34-39 | the poll's `votes` list holds exactly the stored votes of the viewer on that poll, and at most one |
| DataAccess.ProjectPoll | lib/data-access.ts:18-39 | the projected poll keeps the stored fields, each option's count is the number of vote rows naming it, the author is the stored user's name, and the votes are the viewer's |
| DataAccess.ProjectAll | lib/data-access.ts:12-41 | every poll is projected |
| DataAccess.MapSeq | lib/data-access.ts:12-41 | a list mapped element by element, in order |
| DataAccess.MapRemoveAt | lib/data-access.ts:12-41 | taking one element out of a list takes its image out of the mapped list |
| DataAccess.MapPermutes | lib/data-access.ts:12-41 | reordering a list reorders its image: same elements before, same elements after |
| DataAccess.MapPermutesStep | lib/data-access.ts:12-41 | the inductive step of `MapPermutes` |
| DataAccess.GetPolls | lib/data-access.ts:10-48 | a failing query gives the empty list; otherwise the views of exactly the stored polls, each as often as it is stored, newest first |
| DataAccess.GetPollsListsStoredPolls | lib/data-access.ts:12-42 | every stored poll is listed, and every listed poll is the projection of a stored one |
| DataAccess.NewestPollListedFirst | lib/data-access.ts:14-16 | a poll newer than all others comes first |
| DataAccess.ViewerVoteIsStoredVote | lib/data-access.ts:34-39 | the viewer's list has one vote exactly when the viewer has a row for the poll, and that vote names the stored option |
| PollCard.UserVote | app/components/PollCard.tsx:26 | the viewer's vote is the first of the poll's votes, or none when there are none |
| PollCard.TotalVotes | app/components/PollCard.tsx:31-33 | the total is at least every option's count, and is 0 exactly when every count is 0 |
| PollCard.TotalVotesConcat | app/components/PollCard.tsx:31-33 | the total over two runs of options is the sum of their totals |
| PollCard.Percentage | app/components/PollCard.tsx:57-59 | the percentage is 0 when the total is 0, and within [0, 100] when the count does not exceed the total |
| PollCard.PercentageScales | app/components/PollCard.tsx:57-59 | with a positive total, percentage times total is the count times 100 |
| PollCard.Percentages | app/components/PollCard.tsx:55-59 | one percentage per option, computed from that option's count |
| PollCard.PercentageAdds | app/components/PollCard.tsx:57-59 | percentages of counts add like the counts |
| PollCard.PercentageOfTotal | app/components/PollCard.tsx:57-59 | the whole total is 100 percent |
| PollCard.PercentagesShare | app/components/PollCard.tsx:31-59 | the percentages of a card add up to the percentage of its total |
| PollCard.PercentagesSumTo100 | app/components/PollCard.tsx:31-59 | a card with at least one vote shows percentages adding up to exactly 100 |
| PollCard.TallyScenario | app/components/PollCard.tsx:31-59 | 3 votes and 1 vote show 75 and 25 out of 4; no votes show 0 and 0 |
| PollCard.VoteLabel | app/components/PollCard.tsx:76 | the label is the decimal count followed by 5 more characters for a count of 1 and 6 otherwise (`VoteLabelParts` names them) |
| PollCard.VoteLabelParts | app/components/PollCard.tsx:76 | the label is the decimal count followed by " vote" exactly when the count is 1, and " votes" otherwise |
| PollCard.VoteLabelExamples | app/components/PollCard.tsx:76 | 0 gives "0 votes", 1 gives "1 vote", 2 gives "2 votes" |
| PollCard.AuthorName | app/components/PollCard.tsx:40 | the author's name when it is present and non-empty, otherwise "Anonymous" |
| PollCard.IsSelected | app/components/VoteButton.tsx:29 | an option is selected exactly when the viewer's vote names it; with no vote nothing is selected |
| PollCard.HighlightIsStoredVote | app/components/PollCard.tsx:84 | on the card, an option is highlighted exactly when the viewer's stored row for the poll names it |
| PollCard.AtMostOneHighlighted | app/components/PollCard.tsx:84 | with distinct option identifiers, at most one option is highlighted |
| PollCard.HighlightAfterVote | app/components/PollCard.tsx:84 | after the viewer votes for an option, that option and no other is highlighted |
| Actions.SessionUser | app/actions.ts:35-36 | a session counts as logged in exactly when it has a non-empty user id |
| Actions.HasText | app/actions.ts:50 | `option.trim().length > 0` holds exactly when the option is not all white space |
| Actions.AsText | app/actions.ts:49 | `.map(String)` converts each value in place |
| Actions.DropBlank | app/actions.ts:50 | the filter keeps exactly the strings whose trimmed text is non-empty, is no longer than its input, and keeps a list without blanks whole |
| Actions.DropBlankKeepsNonBlank | app/actions.ts:50 | a string survives exactly when it has a character that is not white space |
| Actions.DropBlankConcat | app/actions.ts:47-50 | the filter works element by element, so survivors keep the submitted order |
| Actions.DropBlankIdempotent | app/actions.ts:50 | filtering twice is filtering once |
| Actions.SubmittedOptions | app/actions.ts:47-50 | the options handed to validation are exactly the submitted option values that are not all white space, no more of them than were submitted |
| Actions.SubmittedOptionsKeepText | app/actions.ts:47-50 | a non-blank option field reaches validation verbatim and untrimmed, a blank one is dropped, a file becomes "[object File]", and other fields are ignored |
| Actions.OptionFieldsOf | app/actions.ts:47-49 | `getAll('option')` with `.map(String)` picks the option fields in order |
| Actions.DropBlankOfThree | app/actions.ts:50 | a blank in the middle is dropped and its neighbours stay in order |
| Actions.KeptText | app/actions.ts:50 | a string with one non-white-space character survives the filter |
| Actions.SubmittedOptionsNeverEmpty | app/actions.ts:47-57 | after the filter, the empty-option rule never fires, and the options pass exactly when at least 2 remain |
| Actions.RouteCache.RevalidatePath | app/actions.ts:97 | refreshing a path appends it to the log |
| Actions.ParseForm | app/actions.ts:54-57 | validation succeeds exactly when the question passes and at least 2 options survive, returning the submitted question and the surviving options; on failure the `options` errors are only the count issue |
| Actions.CreatePollStep | app/actions.ts:29-101 | no session gives the login error with the store untouched, before validation; a validation failure gives the field errors; a store failure gives the database error; only success changes the store, by adding the validated poll, and redirects to "/" |
| Actions.CreatePollAddsOnePoll | app/actions.ts:74-85 | a successful create appends exactly one poll, by the session's user, with the submitted question and one option per surviving option text in order; votes and users are unchanged |
| Actions.CreatedIdsAreFresh | app/actions.ts:74-85 | the new poll's and its options' identifiers were not in use before |
| Actions.FreshRowIds | app/actions.ts:74-85 | with unique identifiers in the store, an appended poll's identifiers are new |
| Actions.CreatePollTooFewOptions | app/actions.ts:47-64 | with fewer than 2 non-blank options, the result is the field errors with exactly the count issue under `options`, and the store is unchanged |
| Actions.CreatePoll | app/actions.ts:29-101 | the method computes the step function's result and store, and refreshes "/" exactly when it redirects |
| Actions.FormId | app/actions.ts:123-134 | an identifier field passes exactly when it is present, is a string and is not empty |
| Actions.SubmitVoteStep | app/actions.ts:112-170 | no session throws the login error, before the identifiers are read; a missing, empty or non-string identifier throws the invalid-form error; a store failure throws the database error; every throw leaves the store untouched; success upserts (user, poll) to the submitted option without checking it |
| Actions.SubmitVoteReplacesOnlyItsRow | app/actions.ts:140-158 | after a vote, (user, poll) holds exactly the submitted option, every other pair is unchanged, and submitting the same form again changes nothing |
| Actions.SubmitVote | app/actions.ts:112-170 | the method computes the step function's outcome and store, and refreshes "/" exactly when the vote commits |
| Consistency.VoteForm | app/components/PollCard.tsx:51-53 | the form a vote button posts (the card's hidden `pollId`, then the button's `optionId`) gives back both identifiers under the names the action reads |
| Consistency.AnyOptionIsRecorded | app/actions.ts:136-158 | any non-empty option identifier is recorded against the poll, whatever poll it belongs to |
| Consistency.ForeignOptionVote | app/actions.ts:136-158 | a vote on one poll naming another poll's option is counted on the other poll's card, and the voted poll shows a viewer vote but highlights none of its options |

## Left out

- Authentication: `auth()`, next-auth and Google sign-in are an optional user identifier passed in.
- `redirect('/')` is modelled only as the result `Redirect("/")`. Navigation and Next.js's redirect exception are not modelled.
- `revalidatePath('/')` is modelled only as an entry in a log. The Next.js cache is not modelled.
- The Prisma client and the database schema (prisma/schema.prisma is not part of this model) are replaced by the abstract tables.
- Foreign-key checks the database may apply to a vote's option identifier are not modelled. The model records the identifier as given, which is what the action's code does.
- Identifiers are the decimal text of a counter, in place of the store's generated identifiers. The model relies only on their uniqueness.
- `createdAt` is the `now` parameter of `createPoll`, in place of the database's default timestamp.
- Definitions.QuestionIssues: a missing or non-string question gets an issue without Zod's wording of the invalid-type message.
- Definitions.OptionIssues: within `options`, the count issue is listed before the empty-option issues. Zod's exact issue order is not modelled.
- DataAccess.SortByNewest: polls with the same `createdAt` keep their store order. The database leaves that order unspecified.
- DataAccess.ProjectPoll: a listed poll's options come in creation order. The query gives them no `orderBy`, so in the application their order is up to the database.
- `getPolls` with an undefined viewer is not modelled; the viewer is always defined.
- The query's error is not modelled: `fail: bool` stands for it, and the console log is left out.
- JsString.DecimalString: `String(n)` for n of at least 10^21 uses exponent notation, which is not modelled. Counts and counters stay below that.
- Percentages are stated over the reals, not IEEE doubles. Their rendering as CSS widths is left out.
- Concurrency is not modelled. Each store operation is one atomic step.
- All rendering and styling is left out, as are the `pending` state of the vote button and the other pages and layouts.
- next.config.ts and the PWA setup are configuration only and are left out.
- The store operations `Db.CreatePoll` and `Db.UpsertVote` change `Db`'s fields in place. `getPolls` and the card's values are functions of the store's contents, so they are read-only by construction.
