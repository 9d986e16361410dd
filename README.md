# Frontend dashboard core, modelled in Dafny

This project models the logic at the heart of a small team dashboard. The dashboard records
coding-convention violations ("convention logs") per team member and keeps a taxonomy of
convention types, topics, rules and actions. It also keeps an activity log and remembers who
is logged in.

The model covers:

- **The data-access layer** (`lib/convention-api.ts`, `lib/activity-log-api.ts`) over an
  in-memory backend: one sequence of rows per table, held by a `Database` object.
  - Reads are functions of the tables plus an optional backend failure.
  - Inserts, updates and deletes are methods that replace the tables. They return a
    `Result` whose error is the failure the code rethrows.
  - The model applies exactly the filters, orderings and limits each call asks for.
  - It also models:
    - flattening a topic's joined type;
    - normalising joined relations that arrive as an array or an object;
    - merging members with their summary counts.
- **The client query functions** (`store/conventionApi.ts`): distinct type options with
  their labels, projections of members, topics and actions, and the mapping of any failure to
  a `FETCH_ERROR`.
- **The form-options hook** (`hooks/useConventionFormOptions.ts`): topic and action choices
  filtered by the selected type and topic, defaults before data arrives, and the error message
  chosen from the query error.
- **The convention entry form** (`components/conversion-log/ConventionForm.tsx`):
  - default values, and choices that depend on the selected type and topic;
  - the resets that clear dependent fields;
  - the required-field check, and the save and cancel resets;
  - all of it as a `FormState` object.
- **The team-rules panel** (`components/conversion-log/TeamRulesBox.tsx`):
  - the loop that groups rules under their topic and drops rules of unknown topics;
  - sorting each group's rules, and the groups, by `sort_order`;
  - the panel's `groups`/`loading` state.
- **The current-user store** (`hooks/useCurrentUser.ts`): the snapshot memoised on the raw
  stored string, the listener set, and `setUser`, which writes or removes the entry and
  notifies every listener.
- **The login page** (`app/login/page.tsx`): trimming the typed name and a case-insensitive
  lookup in the fixed member list. The first match becomes the current user.

Shared modules:

- `Wrappers`: `Option`, `Result`, `Thrown`.
- `Seqs`: `Map`, `Filter`, `Take`, `Distinct`, sums.
- `Sorting`: a stable insertion sort and comparators for ascending, descending, text and
  "then by" orders.
- `DatabaseTypes`: the row shapes of `lib/database.types.ts`.
- `Backend`: the tables and primary-key uniqueness.

Conventions of the model:

- Timestamps are microseconds since 1970-01-01T00:00:00.000000Z, the precision at which the database stores a `timestamptz`. Calendar dates are day numbers.
- A backend failure is a parameter (`fault`). `ErrorInstance(message)` stands for a thrown
  `Error`, and `NonErrorValue` for anything else that is thrown.
- Identifiers and `created_at` values the database would generate are parameters of the
  inserting methods.

Where the code and the written design of the system disagree, the model follows the code:

- Rules and actions are ordered by the text of `topic_id`. They are not ordered by the
  topic's position.
- An action's `value` is stored as given. No slug is derived from its label.
- Inserting a type with an existing `value` is not rejected by the code. Only an id collision
  is modelled.
- Deleting a topic or type is a plain delete, with no in-use check or cascade.
- The activity-log query has only the `fromDate`, `toDate`, `actionType` and `limit` filters.
  Its day bounds are in UTC.
- The summary counts are only read, never maintained, by this code.

## Model

| member | source | states |
|---|---|---|
| ConventionApi.Respond | lib/convention-api.ts:19-20 | a backend error is passed on as the failure and never swallowed; otherwise the rows are returned |
| ConventionApi.ActiveMembersSpec | lib/convention-api.ts:14-18 | the members read are exactly the active ones (a permutation of the active rows) and are in name order |
| ConventionApi.GetFrontendMembers | lib/convention-api.ts:12-21 | fails exactly when the backend fails; otherwise exactly the active members in name order (`ActiveMembers`), each an active row of the table |
| ConventionApi.CountByMemberKeys | lib/convention-api.ts:48 | the count map has a key exactly for the member ids that occur in the summary rows |
| ConventionApi.CountByMemberLastWins | lib/convention-api.ts:48 | when two summary rows share a member id, the later row's count is the one kept |
| ConventionApi.MergeSummaries | lib/convention-api.ts:50-54 | one item per member, same order, with the member's id and name |
| ConventionApi.MergeSummariesCounts | lib/convention-api.ts:48-54 | a member without a summary row gets count 0; otherwise the count of its last summary row |
| ConventionApi.GetMemberConventionSummaries | lib/convention-api.ts:31-55 | fails exactly when either read fails (the members' failure first); otherwise exactly `MergeSummaries` of the active members in name order and the summary rows: one item per member, with the count `MergeSummariesCounts` gives |
| ConventionApi.TypesInOrderSpec | lib/convention-api.ts:75-78 | the types are a permutation of the table, ascending by sort_order |
| ConventionApi.GetConventionTypes | lib/convention-api.ts:73-81 | fails exactly on a backend failure; otherwise the type rows sorted by ascending sort_order (`TypesInOrder`), a permutation of the table |
| ConventionApi.GetConventionTypeOptions | lib/convention-api.ts:60-70 | the backend failure, or `{value, label}` of each type row in the order `TypesInOrder` gives, one per row, each the image of a row |
| ConventionApi.NewConventionType | lib/convention-api.ts:92-96 | the inserted type has the given value and label, and sort_order 0 when omitted |
| ConventionApi.InsertConventionType | lib/convention-api.ts:84-101 | on success exactly one row is appended and returned, and nothing else changes; on a failure or key clash nothing changes |
| ConventionApi.PatchConventionType | lib/convention-api.ts:111-115 | only the fields given (not undefined) are written; id and timestamps are kept |
| ConventionApi.UpdateConventionType | lib/convention-api.ts:104-121 | the row with the id is patched and returned and every other row and table is unchanged; no such row is the single-row error |
| ConventionApi.DeleteConventionType | lib/convention-api.ts:124-131 | the rows with the id are removed and nothing else changes, or the failure leaves all as it was |
| ConventionApi.FlattenTopic | lib/convention-api.ts:151-155 | the topic's own columns are kept and the join is dropped; `type` is the object's value, or the first array element's value, or "" when absent |
| ConventionApi.GetTopicConventionOptions | lib/convention-api.ts:139-156 | the backend failure, or the topics in ascending sort_order each flattened with its joined type, one per row |
| ConventionApi.TopicConventionOptionsOrdered | lib/convention-api.ts:143-146 | the topics returned are a permutation of the table's topics, ascending by sort_order |
| ConventionApi.GetConventionRules | lib/convention-api.ts:171-180 | the backend failure, or a permutation of the rule rows in text order of topic_id and ascending sort_order within a topic |
| ConventionApi.ConventionRulesOrdered | lib/convention-api.ts:173-177 | rules are ordered by topic_id, and by sort_order within a topic |
| ConventionApi.GetActionRules | lib/convention-api.ts:159-168 | the backend failure, or a permutation of the action rows in text order of topic_id and ascending sort_order within a topic |
| ConventionApi.ActionRulesOrdered | lib/convention-api.ts:161-165 | actions are ordered by topic_id, and by sort_order within a topic |
| ConventionApi.NewTopic | lib/convention-api.ts:191-195 | the inserted topic has the given title and type_id, and sort_order 0 when omitted |
| ConventionApi.InsertTopicConventionOption | lib/convention-api.ts:183-200 | exactly one row appended and returned, or nothing changes |
| ConventionApi.PatchTopic | lib/convention-api.ts:210-214 | only the given fields are written |
| ConventionApi.UpdateTopicConventionOption | lib/convention-api.ts:203-220 | only the row with the id changes, and only in its given fields; missing row is the single-row error |
| ConventionApi.DeleteTopicConventionOption | lib/convention-api.ts:223-230 | the rows with the id are removed, nothing else changes |
| ConventionApi.NewRule | lib/convention-api.ts:241-245 | the inserted rule has the given topic and text, and sort_order 0 when omitted |
| ConventionApi.InsertConventionRule | lib/convention-api.ts:233-250 | exactly one row appended and returned, or nothing changes |
| ConventionApi.PatchRule | lib/convention-api.ts:260-264 | only the given fields are written |
| ConventionApi.UpdateConventionRule | lib/convention-api.ts:253-270 | only the row with the id changes, and only in its given fields; missing row is the single-row error |
| ConventionApi.DeleteConventionRule | lib/convention-api.ts:273-277 | the rows with the id are removed, nothing else changes |
| ConventionApi.NewAction | lib/convention-api.ts:289-294 | the inserted action has the given topic, label and value, and sort_order 0 when omitted |
| ConventionApi.InsertActionRule | lib/convention-api.ts:280-299 | exactly one row appended and returned, or nothing changes |
| ConventionApi.PatchAction | lib/convention-api.ts:314-318 | only the given fields are written |
| ConventionApi.UpdateActionRule | lib/convention-api.ts:302-324 | only the row with the id changes, and only in its given fields; missing row is the single-row error |
| ConventionApi.DeleteActionRule | lib/convention-api.ts:327-331 | the rows with the id are removed, nothing else changes |
| ConventionApi.NewLog | lib/convention-api.ts:349-358 | the inserted log copies the given fields; omitted sprint, notes and created_by are null |
| ConventionApi.InsertConventionLog | lib/convention-api.ts:345-360 | exactly one log row appended, or nothing changes |
| ConventionApi.RewriteLog | lib/convention-api.ts:370-378 | log_date through notes are rewritten (omitted sprint/notes become null); id, created_by and created_at are never changed |
| ConventionApi.UpdateConventionLog | lib/convention-api.ts:363-381 | only the log with the id is rewritten; with no such log nothing changes and no error is raised |
| ConventionApi.DeleteConventionLog | lib/convention-api.ts:384-388 | the logs with the id are removed, nothing else changes |
| ConventionApi.DeleteWhereIdSpec | lib/convention-api.ts:126-129 | a delete by id keeps exactly the rows with another id, in order |
| ConventionApi.NormalizeEmbedded | lib/convention-api.ts:442-444 | an array becomes its first element or null when empty; an object or null passes through |
| ConventionApi.NormalizeEmbedRoundTrip | lib/convention-api.ts:442-444 | normalising undoes either way the backend may embed a joined row |
| ConventionApi.NormalizeLogRow | lib/convention-api.ts:436-445 | every other field is kept; the three joined fields are normalised |
| ConventionApi.NormalizeLogRows | lib/convention-api.ts:435-447 | same length and order, each row normalised |
| ConventionApi.WithDetails | lib/convention-api.ts:420-433 | each log carries its own columns and the name, title and label of the rows it refers to, null when the referenced row is missing |
| ConventionApi.LatestLogsSpec | lib/convention-api.ts:411-415 | at most 10 logs, newest first, all from the table, none left out newer than one returned, all of them when there are at most 10 |
| ConventionApi.GetLatestConventionLogs | lib/convention-api.ts:407-418 | the backend failure, or exactly the joined rows of `LatestLogs` (the 10 newest, newest first, per `LatestLogsSpec`) |
| ConventionApi.LogsByDateRangeMembers | lib/convention-api.ts:455-459 | a log is returned exactly when it is in the table and start ≤ log_date ≤ end |
| ConventionApi.LogsByDateRangeOrdered | lib/convention-api.ts:460-461 | ordered by log_date descending, then created_at descending |
| ConventionApi.GetConventionLogsByDateRange | lib/convention-api.ts:450-464 | the backend failure, or exactly the joined rows of `LogsByDateRange`: every log in range once per copy, ordered as `LogsByDateRangeOrdered` states |
| ActivityLogApi.NewActivity | lib/activity-log-api.ts:16-21 | the entry has the given fields, and null metadata when omitted |
| ActivityLogApi.InsertActivityLog | lib/activity-log-api.ts:12-23 | exactly one row appended and nothing else changes, or the failure is passed on with nothing changed |
| ActivityLogApi.GetActivityLogs | lib/activity-log-api.ts:33-51 | the query built step by step returns exactly the filtered, newest-first, limited rows; the failure is passed on |
| ActivityLogApi.ActivityLogsSound | lib/activity-log-api.ts:36-46 | every row returned is from the table and passes every filter given; newest first; at most the limit, 20 by default |
| ActivityLogApi.ActivityLogsComplete | lib/activity-log-api.ts:41-46 | the limit only cuts off older rows; when few enough rows match, all are returned |
| ActivityLogApi.DayBoundsExact | lib/activity-log-api.ts:43-44 | the two inclusive bounds admit an instant exactly when it lies in that UTC day no later than 23:59:59.999000 |
| ActivityLogApi.DayBoundsGap | lib/activity-log-api.ts:43-44 | an instant after 23:59:59.999000 and before midnight belongs to that day, yet neither that day's bounds nor the next day's admit it |
| ActivityLogApi.DayBoundsGapWitness | lib/activity-log-api.ts:44 | the gap is never empty: 23:59:59.999001 of every day is left out by the upper bound |
| ConventionStore.TypeLabel | store/conventionApi.ts:23-26 | "Convention" and "Delivery" for the two known types, the raw value otherwise |
| ConventionStore.TypeOptions | store/conventionApi.ts:45-51 | each distinct topic type exactly once, every topic's type present, labelled from the table |
| ConventionStore.TypeOptionsFirstAppearance | store/conventionApi.ts:45-46 | type options are in the order of each type's first appearance among the topics |
| ConventionStore.BuildFormOptions | store/conventionApi.ts:53-69 | members, topics and actions projected with the same length and order and the fields copied |
| ConventionStore.ErrorMessageOf | store/conventionApi.ts:72-73 | an Error's message, the fallback text for any other thrown value |
| ConventionStore.ToQueryResult | store/conventionApi.ts:70-77 | success carries the data; a failure becomes `{status: "FETCH_ERROR", error: message}` |
| ConventionStore.GetConventionFormOptions | store/conventionApi.ts:37-78 | fails exactly when one of the three reads fails, reporting the first in argument order; otherwise `BuildFormOptions` of the active members, the ordered joined topics and the ordered actions |
| ConventionStore.LatestLogsQuery | store/conventionApi.ts:81-92 | exactly the joined rows of `LatestLogs`, at most 10, or a FETCH_ERROR with "Failed to load logs" as fallback |
| ConventionStore.SummariesQuery | store/conventionApi.ts:98-109 | exactly `MergeSummaries` of the active members and the summary rows, or a FETCH_ERROR with "Failed to load summary" as fallback; when only the summary read fails, the error carries that failure's own message |
| FormOptionsHook.GetTopicOptions | hooks/useConventionFormOptions.ts:19-24 | nothing without data or without a type |
| FormOptionsHook.TopicOptionsSpec | hooks/useConventionFormOptions.ts:21-23 | otherwise the options are the image, as `{value: id, label: title}`, of the topics of that type kept in source order; each such topic appears exactly as many times as in the catalogue and no other topic appears |
| FormOptionsHook.GetActionOptions | hooks/useConventionFormOptions.ts:29-34 | nothing without data or without a topic |
| FormOptionsHook.ActionOptionsSpec | hooks/useConventionFormOptions.ts:31-33 | otherwise the options are the image, as `{value: id, label: label}`, of the actions of that topic kept in source order; each such action appears exactly as many times as in the catalogue and no other action appears |
| FormOptionsHook.MemberOptions | hooks/useConventionFormOptions.ts:50 | empty before data arrives, the loaded member options after |
| FormOptionsHook.TypeOptionsOf | hooks/useConventionFormOptions.ts:51 | empty before data arrives, the loaded type options after |
| FormOptionsHook.ErrorMessage | hooks/useConventionFormOptions.ts:38-47 | null unless isError and a truthy error; a string as is; else the string `error`, else `String(message)`, else "Failed to load options" |
| FormOptionsHook.FetchErrorShown | hooks/useConventionFormOptions.ts:42-43 | a failed options query shows exactly the message its query function produced |
| ConventionForm.GetDefaultValues | components/conversion-log/ConventionForm.tsx:26-36 | today's date and every text field empty |
| ConventionForm.GetTopicOptionsByType | components/conversion-log/ConventionForm.tsx:48-52 | no choices while no type is selected |
| ConventionForm.TopicOptionsByTypeSpec | components/conversion-log/ConventionForm.tsx:50-51 | otherwise the choices are the image of the catalogue entries of that type kept in source order; each such entry appears exactly as many times as in the catalogue and no other entry appears |
| ConventionForm.GetActionOptionsByTopic | components/conversion-log/ConventionForm.tsx:61-67 | no choices for an empty topic or one without an action type |
| ConventionForm.ActionOptionsByTopicSpec | components/conversion-log/ConventionForm.tsx:54-67 | otherwise the choices are the image of the actions of the topic's mapped action type kept in source order; each such action appears exactly as many times as in the catalogue and no other action appears |
| ConventionForm.OnTypeChange | components/conversion-log/ConventionForm.tsx:167-171 | a type change sets the type and clears topic and action; the rest is unchanged |
| ConventionForm.OnTopicChange | components/conversion-log/ConventionForm.tsx:195-198 | a topic change sets the topic and clears the action; the type and the rest are unchanged |
| ConventionForm.MissingFields | components/conversion-log/ConventionForm.tsx:135-219 | a required field is reported exactly when member, type, topic or action is empty |
| ConventionForm.SubmittableSpec | components/conversion-log/ConventionForm.tsx:135-219 | saving is possible exactly when the four are chosen; sprint, notes and date do not matter |
| ConventionForm.TypeChangeBlocksSubmit | components/conversion-log/ConventionForm.tsx:167-171 | after a type change the form cannot be saved until topic and action are chosen again |
| ConventionForm.Payload | components/conversion-log/ConventionForm.tsx:88-91 | the values handed on, with a cleared date replaced by today |
| ConventionForm.FormState.constructor | components/conversion-log/ConventionForm.tsx:77-80 | the form starts from the default values |
| ConventionForm.FormState.ChangeType | components/conversion-log/ConventionForm.tsx:167-171 | the new values are the type-change transition of the old ones |
| ConventionForm.FormState.ChangeTopic | components/conversion-log/ConventionForm.tsx:195-198 | the new values are the topic-change transition of the old ones |
| ConventionForm.FormState.ChangeMember | components/conversion-log/ConventionForm.tsx:143 | only the member changes; a cleared select stores "" |
| ConventionForm.FormState.ChangeAction | components/conversion-log/ConventionForm.tsx:223 | only the action changes |
| ConventionForm.FormState.ChangeDate | components/conversion-log/ConventionForm.tsx:120 | only the date changes; a cleared picker stores null |
| ConventionForm.FormState.ChangeSprint | components/conversion-log/ConventionForm.tsx:237-241 | only the sprint changes |
| ConventionForm.FormState.ChangeNotes | components/conversion-log/ConventionForm.tsx:252-256 | only the notes change |
| ConventionForm.FormState.Submit | components/conversion-log/ConventionForm.tsx:87-95 | with a required field empty nothing changes and the missing fields are reported; each missing field is reported with its rule's message; otherwise the payload is handed on and the form is reset |
| ConventionForm.FormState.Cancel | components/conversion-log/ConventionForm.tsx:97-99 | the form is reset to its defaults |
| TeamRulesBox.TopicById | components/conversion-log/TeamRulesBox.tsx:30-38 | the lookup finds a topic with the id exactly when one exists |
| TeamRulesBox.TopicByIdLastWins | components/conversion-log/TeamRulesBox.tsx:30-32 | of several topics with one id, the map keeps the last |
| TeamRulesBox.GroupRules | components/conversion-log/TeamRulesBox.tsx:30-59 | the loop, the per-group sort and the final sort give exactly the groups of the specification function |
| TeamRulesBox.SkipStep | components/conversion-log/TeamRulesBox.tsx:38-39 | a rule of an unknown topic changes neither the keys nor any bucket |
| TeamRulesBox.AddStep | components/conversion-log/TeamRulesBox.tsx:40-45 | a rule of a known topic opens its bucket with the topic's title and order if needed, and is appended to it |
| TeamRulesBox.GroupKeysSpec | components/conversion-log/TeamRulesBox.tsx:37-44 | a topic gets a group exactly when it exists and has at least one rule |
| TeamRulesBox.GroupsFromTopics | components/conversion-log/TeamRulesBox.tsx:40-51 | each group's topic exists and gives its title and sort_order; it holds exactly that topic's rules (as a permutation), at least one |
| TeamRulesBox.GroupsComplete | components/conversion-log/TeamRulesBox.tsx:37-46 | a rule is in some group exactly when its topic exists, and then in its own topic's group |
| TeamRulesBox.GroupsDistinct | components/conversion-log/TeamRulesBox.tsx:40-44 | no topic has two groups |
| TeamRulesBox.GroupsOrdered | components/conversion-log/TeamRulesBox.tsx:47-59 | groups ascend by topic sort_order, and the rules inside each group by their sort_order |
| TeamRulesBox.GroupsCount | components/conversion-log/TeamRulesBox.tsx:37-46 | the groups together hold exactly as many rules as there are rules of existing topics |
| TeamRulesBox.Panel.constructor | components/conversion-log/TeamRulesBox.tsx:20-21 | the panel starts with no groups and loading |
| TeamRulesBox.Panel.Load | components/conversion-log/TeamRulesBox.tsx:23-64 | loading always ends; a failed read leaves the groups as they were; otherwise the groups of the rules and topics read |
| CurrentUser.GetItem | hooks/useCurrentUser.ts:13 | the stored string under the key, null when absent |
| CurrentUser.Decode | hooks/useCurrentUser.ts:16-25 | null for a missing or empty value, a value that does not parse, or one without a name; otherwise the parsed user |
| CurrentUser.SnapshotAfterSetUser | hooks/useCurrentUser.ts:21-22 | given that parsing undoes serialising, a stored user with a name reads back as that user |
| CurrentUser.SetAdd | hooks/useCurrentUser.ts:32 | adding keeps the listeners distinct, adds the new one at the end, and leaves a present one in place |
| CurrentUser.SetDelete | hooks/useCurrentUser.ts:33 | deleting keeps exactly the other listeners, distinct |
| CurrentUser.SetDeleteAbsent | hooks/useCurrentUser.ts:33 | deleting a listener that is not there changes nothing |
| CurrentUser.AddThenDelete | hooks/useCurrentUser.ts:31-34 | subscribing a new listener and calling the returned unsubscribe leaves the set as it was |
| CurrentUser.UserStore.constructor | hooks/useCurrentUser.ts:8-9 | the memo starts keyed on "" with a null snapshot, and no one listens |
| CurrentUser.UserStore.GetSnapshot | hooks/useCurrentUser.ts:11-27 | without a window: null and the memo untouched; otherwise the snapshot of the stored value, and on a memo hit the memo itself with no parse |
| CurrentUser.UserStore.Subscribe | hooks/useCurrentUser.ts:31-32 | the listener is added; nothing else changes |
| CurrentUser.UserStore.Unsubscribe | hooks/useCurrentUser.ts:33 | the listener is removed; nothing else changes |
| CurrentUser.UserStore.NotifyListeners | hooks/useCurrentUser.ts:36-38 | every listener is called exactly once, in subscription order |
| CurrentUser.UserStore.SetUser | hooks/useCurrentUser.ts:43-53 | a user is stored serialised under the key, null removes the key, other keys are kept, then every listener is notified |
| CurrentUser.SetThenRead | hooks/useCurrentUser.ts:43-53 | reading the snapshot right after `setUser` gives the user that was set, whatever the memo held |
| LoginPage.Trim | app/login/page.tsx:17 | a slice of the input with only white space cut off either end and none left at either end; empty exactly for all-space input |
| LoginPage.ToLower | app/login/page.tsx:20 | the same length, each Latin capital lowered |
| LoginPage.FindMember | app/login/page.tsx:19-21 | the first member whose name matches ignoring case, none exactly when no name matches |
| LoginPage.Decide | app/login/page.tsx:17-25 | blank input is ignored; an unknown name is rejected |
| LoginPage.AcceptedIsMember | app/login/page.tsx:19-26 | an accepted login uses the canonical name and role of the first matching member |
| LoginPage.DecideIgnoresCase | app/login/page.tsx:19-21 | inputs equal after trimming and lower-casing are decided alike |
| LoginPage.HandleSubmit | app/login/page.tsx:15-29 | blank input does nothing; an unknown name shows the error and leaves the user unchanged; a known one stores the member, notifies the unchanged listeners, leaves the memo and parse count alone and goes to the dashboard |

## Left out

- Supabase client creation, the network and the RTK Query cache and its lifetime are not modelled. A backend failure is an input of each read and write.
- `Promise.all` runs its reads together. When several of them fail, the model reports the first in argument order.
- Column collation is not modelled. `ORDER BY` on text uses code-point order, and ties keep the table's order. The database leaves tie order unspecified.
- Rows whose primary key would collide are rejected with an error. Other database constraints and triggers are not modelled, including:
  - the unique `value` of a type;
  - foreign keys;
  - cascades;
  - `updated_at` triggers.
- The maintenance of `member_convention_summary` counts is not modelled. The code only reads that table.
- Dates are day numbers, so malformed date strings are not modelled. An empty string filter is treated like an omitted one, as the code does.
- The activity-log `limit` is a natural number. Negative or fractional limits are not modelled.
- ActivityLogApi.GetActivityLogs: the returned rows are not checked against the `select` column list. The model returns whole rows.
- The convention form's select constants (`CONVENTION_TYPE_RULES`, `ACTION_RULES`, `TEAM_MEMBERS`, `REDUX_TYPE_OPTIONS`) are not in `lib/constants.ts`. They are parameters of the model.
- The form's "edit mode" is not modelled. Its props are passed in but never declared.
- The success toast, the console output and the form library's validation display are left out.
- ConventionForm.GetDefaultValues: `dayjs()` is the parameter `today`. Clock time within the day is not modelled.
- TeamRulesBox.Panel.Load: the rejected promise of a failed load is the returned `Err`. React's state batching and effect timing are left out.
- ConventionStore.TypeLabel: the object lookup in the source also finds keys inherited from `Object.prototype` (`constructor`, `toString`, `valueOf`, `hasOwnProperty`, `__proto__` and the like). For those values the source yields the inherited member, which is not a string, and `??` does not fall back. The model returns the raw value for them, as for any other unknown type.
- CurrentUser.Decode: a parsed value counts as a user only when its `name` is a non-empty string. A truthy non-string `name` is not modelled.
- `JSON.parse` and `JSON.stringify` are fixed functions of the store. The round trip is a stated assumption, not proved.
- Listeners are identities, and a call is recorded, not run. A listener that subscribes or unsubscribes during notification is not modelled.
- Storage events from other tabs are not modelled.
- LoginPage.ToLower: only the Latin capitals A–Z are lowered. Full Unicode case mapping is not modelled. The only other characters that lower to a single ASCII letter are the Kelvin sign, which lowers to "k". No member name contains "k", so the lookup in the fixed member list decides alike.
- `router.refresh()` after login and the rendering of the error toast are left out. The error text is returned.
- The settings screens, the log and summary screens, the sidebar, theming, layout and the `RequireUser` redirect timing are UI only.
- Activity-log entries are never appended by the mutation paths, so that is not modelled.
