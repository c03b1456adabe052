# fray core, modelled in Dafny

fray is a desktop chat client for Matrix homeservers: a React store in
TypeScript with a Tauri (Rust) shell. This project models the parts of it that
decide things, and proves what they promise.

- **Hard delete of a Synapse room.** There are two implementations, both modelled:
  - the native one in `src-tauri/src/lib.rs` (`SynapseNative`);
  - the browser one in `src/internal/store/legacy/shared.ts` (`SynapseFetch`).
  
  Each negotiates between three admin routes: the v2 DELETE, the v1 DELETE and the legacy POST. It polls the v2 deletion job, switching once from the per-job status route to the per-room one. It then checks that the room lookup answers 404. The network is a script of replies and latencies (`Http.Net`), and the clock is explicit. Lemmas compare the two implementations reply by reply and name where they differ.
- **Channel layout of a space.**
  - Categories with unique ids, always including `"channels"`.
  - Per-room placements whose orders are contiguous in each category.
  - Hydration against the space's rooms.
  - The category and channel actions of the rooms slice (`Layout`, `Placements`, `Hydration`, `RoomOrder`, `LayoutDrafts`, `LayoutActions`, `ApplyLayout`, `RoomDeletion`, `RoomsSlices`).
- **Normalisers and policy.**
  - Server settings and custom roles (`ServerConfig`).
  - Permission overrides (`PermissionOverrides`).
  - Power levels, roles and per-action permissions (`PermissionService`).
- **Store slices in local mode.** Each is a class whose fields are the slice's state and whose methods are its actions (`AdminSlices`, `MessagesSlices`, `MessageActions`, `UiSlices`, `SettingsSlices`, `RoomsSlices`).
- **Helpers.**
  - Search and thread summaries (`MessagePresentation`).
  - Timeline mapping and backfill (`Timeline`).
  - Merging a timeline into loaded messages (`TimelineMerge`).
  - Pruning of pending redactions (`PendingRedactions`).
  - Local metrics and weekly summaries (`LocalMetrics`).
  - Search navigation (`SearchNavigation`).
  - The server settings form (`SettingsModal`).
  - The message list helpers (`MessageListView`).
  - Feature flags (`FeatureFlags`).
  - The refresh shortcut and desktop refresh path (`AppUpdate`).

JavaScript's stable `Array.prototype.sort` with a numeric comparator is modelled by the insertion sorts of `Sorting`.

Clocks, fresh ids (`uid`) and the answers of external services are parameters: the Tauri updater, the Matrix client's state-event send, and the hard delete as seen from `deleteRoom`.

## Where the two implementations or their description differ

Both implementations aim at the same behaviour. In the places below, the TypeScript code departs from the Rust code, and the model follows each code as written:
- A blank nested `error` is dropped by Rust and kept by TypeScript (`SynapseFetch.BlankErrorDiffers`).
- `status: ""` counts as a status only in Rust (`SynapseFetch.EmptyStatusDiffers`).
- An empty `delete_id` is polled by Rust and skipped by the fetch path (`SynapseFetch.DeleteIdAgreesWithNative`).
- A non-object first `results` entry is read differently by the two parsers (`SynapseFetch.FallbackEntryDiffers`).

## Model

| member | source | states |
|---|---|---|
| SynapseNative.NormalizeBaseUrl | src-tauri/src/lib.rs:7-9 | the result is a prefix of the input, everything removed is `/`, and the result does not end in `/` |
| SynapseNative.NormalizeBaseUrlIdempotent | src-tauri/src/lib.rs:7-9 | normalising twice is normalising once |
| SynapseNative.NormalizeBaseUrlIgnoresTrailingSlash | src-tauri/src/lib.rs:7-9 | a base URL with one more trailing `/` normalises to the same string |
| SynapseNative.StatusDisplay | src-tauri/src/lib.rs:14-24 | a status renders as its decimal code followed by a space (and the reason phrase) |
| SynapseNative.BodyErrorMessage | src-tauri/src/lib.rs:17-23 | only a non-blank string `error` of a JSON body is picked; a blank one yields nothing |
| SynapseNative.ReadErrorBody | src-tauri/src/lib.rs:11-25 | `HTTP <status>` for an empty body, `<status>: <error>` for a non-blank string `error`, `<status>: <body>` otherwise |
| SynapseNative.ExtractNestedErrorSpec | src-tauri/src/lib.rs:27-44 | the result is never blank; a non-blank top-level `error` wins; otherwise a non-blank `shutdown_room.error`, else nothing |
| SynapseNative.FindByDeleteIdSpec | src-tauri/src/lib.rs:52-60 | the first `results` entry whose string `delete_id` equals the job id, or none when no entry has it |
| SynapseNative.SelectEntrySpec | src-tauri/src/lib.rs:52-61 | nothing only for an empty list; an entry with the job id is preferred; otherwise the first entry |
| SynapseNative.ParseDeleteStatusSpec | src-tauri/src/lib.rs:46-73 | a top-level string `status` wins with the nested error; else the selected `results` entry's status and error; else `(None, None)`; the error is never blank |
| SynapseNative.ParseDeleteStatusEmpty | src-tauri/src/lib.rs:46-73 | a payload with no `status` and no `results` yields `(None, None)` |
| SynapseNative.NetworkPrefixStem | src-tauri/src/lib.rs:96 | every transport-failure message starts with `Network error while ` and names the stage |
| SynapseNative.JobFailedMessageNotBlank | src-tauri/src/lib.rs:119-121 | a failed job is reported with a non-blank message (its nested error or the default) |
| SynapseNative.PollStepCases | src-tauri/src/lib.rs:98-125 | per reply: 404/405 switches route exactly on the per-job route; success only on 404/405 on the room route or `complete`; transport errors and other non-2xx stop with their error; only a 2xx polls again |
| SynapseNative.PollDeleteStatus | src-tauri/src/lib.rs:75-128 | at most 61 requests; request i is on the per-job route until a 404/405 and on the room route after; no reply before the last stops the loop; the outcome is the last reply's decision or the 90 s time-out; the elapsed time is each request's latency plus a 1.5 s sleep after each reply that asked to poll again, none after a route switch, and a time-out comes only once 90 s have passed |
| SynapseNative.PollStepNeverTimesOut | src-tauri/src/lib.rs:98-125 | no status reply ends the poller with the time-out failure; only the clock does |
| SynapseNative.PollRequestsSorted | src-tauri/src/lib.rs:84-104 | once the loop has left the per-job route it never returns to it |
| SynapseNative.WaitStepCases | src-tauri/src/lib.rs:145-152 | the room lookup succeeds exactly on 404, polls again exactly on 2xx, fails on a transport error or any other status |
| SynapseNative.WaitForRoomRemoval | src-tauri/src/lib.rs:130-156 | at most 60 room lookups; none but the last stops; the outcome is the last reply's decision or the "still reports this room" time-out; the elapsed time is each lookup's latency plus a 1.5 s sleep after each lookup that found the room, and a time-out comes only once 90 s have passed |
| SynapseNative.WaitStepNeverTimesOut | src-tauri/src/lib.rs:145-152 | no room lookup ends the room check with the time-out failure; only the clock does |
| SynapseNative.Initiate | src-tauri/src/lib.rs:176-250 | an initiating reply falls through exactly on 404/405 for v2 and v1, is accepted exactly on 2xx, and a transport failure rejects with that variant's network message |
| SynapseNative.Negotiate | src-tauri/src/lib.rs:176-250 | v2, v1, legacy are sent in this order, each only after the previous one fell through, and the first reply that did not fall through is reported |
| SynapseNative.PollThenCheck | src-tauri/src/lib.rs:191-211 | after a v2 DELETE accepted with a `delete_id`, the session polls that job and checks the room only once the poll succeeded; the loop that ended the session began no earlier than the call |
| SynapseNative.SessionTimesOutLate | src-tauri/src/lib.rs:75-156 | a session ends with either time-out only when its last loop ran for the whole 90 s; a rejected initiation never reports one |
| SynapseNative.InitiationsInOrder | src-tauri/src/lib.rs:176-250 | the initiating requests followed by later phases satisfy the ordering guarantee of a session |
| SynapseNative.RejectedSession | src-tauri/src/lib.rs:185-189 | a session stopping at a rejected initiating request has that request's failure as its outcome |
| SynapseNative.PollFailedSession | src-tauri/src/lib.rs:196-203 | a poller error short-circuits the session before the room check |
| SynapseNative.PolledSession | src-tauri/src/lib.rs:191-211 | a completed poll followed by the room check gives a session decided by the room check |
| SynapseNative.UnpolledSession | src-tauri/src/lib.rs:205-258 | an accepted initiation without a job id goes straight to the room check, exactly once |
| SynapseNative.RequestSynapseHardDelete | src-tauri/src/lib.rs:158-259 | over the normalised base URL: variants tried strictly in order, status requests only for a v2 `delete_id`, any transport failure terminal, every loop went on only as its replies asked (switch, poll again, or on to the room check after `complete`), the outcome decided by the last reply and, for a time-out, by the last loop's clock, and success only when the room lookup answered 404 |
| SynapseFetch.NormalizeBaseUrlSpec | src/internal/store/legacy/shared.ts:814 | the regular expression removes every trailing `/` and nothing else |
| SynapseFetch.NormalizeBaseUrlAgreesWithNative | src/internal/store/legacy/shared.ts:814 | the replacement and Rust's `trim_end_matches('/')` agree on every string |
| SynapseFetch.ReadErrorBody | src/internal/store/legacy/shared.ts:816-828 | `HTTP <status>` for an empty body, `<status>: <error>` for a string `error` with a non-whitespace character, `<status>: <body>` otherwise |
| SynapseFetch.FindFirstObjectSpec | src/internal/store/legacy/shared.ts:877 | the first `results` entry that is an object, or none |
| SynapseFetch.ParseSynapseDeleteStatusSpec | src/internal/store/legacy/shared.ts:852-894 | `{}` for a non-object; a non-empty string `status` wins with `error ?? shutdown_room.error`; else the entry matching `delete_id`, else the first object entry, else `{}` |
| SynapseFetch.ParseAgreesWithNative | src/internal/store/legacy/shared.ts:852-894 | where no `status` is empty and the fallback entry is the first one, both parsers read the same status and the same non-blank error |
| SynapseFetch.EmptyStatusDiffers | src/internal/store/legacy/shared.ts:857-859 | `status: ""` is a status for the Rust parser and absent for the TypeScript one |
| SynapseFetch.FallbackEntryDiffers | src/internal/store/legacy/shared.ts:877 | with a non-object first entry Rust reads no status while TypeScript reads the first object entry's |
| SynapseFetch.BlankErrorDiffers | src/internal/store/legacy/shared.ts:858-867 | a blank `error` is dropped by Rust and kept by TypeScript |
| SynapseFetch.CompleteTestAgrees | src/internal/store/legacy/shared.ts:896-897 | `toLowerCase() === "complete"` agrees with `eq_ignore_ascii_case("complete")` |
| SynapseFetch.FailedTestAgrees | src/internal/store/legacy/shared.ts:899-900 | `toLowerCase() === "failed"` agrees with `eq_ignore_ascii_case("failed")` |
| SynapseFetch.PollStepAgreesWithNative | src/internal/store/legacy/shared.ts:932-951 | on replies both parsers read alike, the two pollers take the same decision |
| SynapseFetch.NullParsesEmpty | src/internal/store/legacy/shared.ts:943 | an unparseable body (`null` here, `{}` in Rust) yields nothing in the Rust parser either way |
| SynapseFetch.PollSynapseDeleteStatus | src/internal/store/legacy/shared.ts:902-955 | at most 61 requests; routes switch once on 404/405; the outcome is the last reply's decision or the 90 s time-out; the elapsed time is each request's latency plus a 1.5 s sleep after each reply that asked to poll again, none after a route switch, and a time-out comes only once 90 s have passed |
| SynapseFetch.PollStepNeverTimesOut | src/internal/store/legacy/shared.ts:932-951 | no status reply ends the poller with the time-out failure; only the clock does |
| SynapseFetch.StatusRequestsSorted | src/internal/store/legacy/shared.ts:922-938 | once the loop has left the per-job route it never returns to it |
| SynapseFetch.RoomCheckStepAgreesWithNative | src/internal/store/legacy/shared.ts:976-982 | the room check decides exactly as the Rust one, reply by reply |
| SynapseFetch.WaitForSynapseRoomRemoval | src/internal/store/legacy/shared.ts:957-985 | at most 60 room lookups; success only on 404; the outcome is the last reply's decision or the time-out; the elapsed time is each lookup's latency plus a 1.5 s sleep after each lookup that found the room, and a time-out comes only once 90 s have passed |
| SynapseFetch.RoomCheckStepNeverTimesOut | src/internal/store/legacy/shared.ts:976-982 | no room lookup ends the room check with the time-out failure; only the clock does |
| SynapseFetch.AttemptReply | src/internal/store/legacy/shared.ts:1027-1070 | 404/405 falls through for v2 and v1 only; 2xx is accepted; anything else throws |
| SynapseFetch.AttemptReplyAgreesWithNative | src/internal/store/legacy/shared.ts:1027-1070 | each attempt decides exactly as the Rust negotiation |
| SynapseFetch.DeleteIdAgreesWithNative | src/internal/store/legacy/shared.ts:1034-1035 | the fetch path polls exactly the non-empty job ids; an empty `delete_id` is polled by Rust and skipped here |
| SynapseFetch.AttemptV2 | src/internal/store/legacy/shared.ts:1021-1044 | the v2 DELETE, then the status polling exactly when its reply names a non-empty job, ending as the poller's clock and last reply decide |
| SynapseFetch.AttemptV1Delete | src/internal/store/legacy/shared.ts:1046-1059 | sends the v1 DELETE and decides as `AttemptReply` |
| SynapseFetch.AttemptLegacyDelete | src/internal/store/legacy/shared.ts:1061-1071 | sends the legacy POST and never falls through |
| SynapseFetch.AttemptInOrder | src/internal/store/legacy/shared.ts:1073-1079 | the three attempts in order, each only after the previous one returned `false` |
| SynapseFetch.RequestSynapseHardDelete | src/internal/store/legacy/shared.ts:987-1085 | the same session guarantees as the Rust orchestrator on the fetch path: ordered variants, polling only for a non-empty `delete_id`, terminal transport failures, loops that went on only as their replies asked, the room check always last, a time-out only after the last loop's full 90 s, success only on its 404 |
| SynapseFetch.SessionTimesOutLate | src/internal/store/legacy/shared.ts:902-985 | a session ends with either time-out only when its last loop ran for the whole 90 s; a rejected attempt never reports one |
| SynapseFetch.ErrorMessage | src/internal/store/legacy/shared.ts:940-984 | a rejected fetch throws its own error; a failed job throws its `error` even when blank |
| SynapseFetch.BlankJobErrorThrowsEmptyMessage | src/internal/store/legacy/shared.ts:948-949 | a `failed` job whose `error` is `""` throws an error with an empty message |
| Slug.CollapseRuns | src/internal/store/legacy/shared.ts:1193 | `replace(/[^a-z0-9]+/g, "-")` leaves only `[a-z0-9-]`, never two dashes in a row, keeps a leading slug character, and keeps a letter or digit exactly when the input had one |
| Slug.StripDashesSpec | src/internal/store/legacy/shared.ts:1194 | stripping leading and trailing dashes of a collapsed string gives a slug, empty exactly when there was no letter or digit |
| Slug.SlugifySpec | src/components/ServerSettingsModal.tsx:97-102 | trim, lower-case, collapse and strip always give a slug (`[a-z0-9]` runs joined by single dashes), empty exactly when the trimmed lower-cased name has no letter or digit |
| Slug.SlugifyIdempotent | src/components/ServerSettingsModal.tsx:97-102 | the slug of a slug is itself |
| Slug.StripCollapsedIsJoinedWords | src/internal/store/legacy/shared.ts:1193-1194 | replacing every run of other characters by one dash and then stripping the end dashes gives exactly the maximal letter-and-digit runs of the string joined by single dashes |
| Slug.SlugifyIsJoinedWords | src/components/ServerSettingsModal.tsx:97-102 | which slug: the maximal `[a-z0-9]` runs of the trimmed, lower-cased name, in order, joined by single dashes |
| Slug.WordsSpec | src/internal/store/legacy/shared.ts:1193 | the runs are non-empty, made only of letters and digits, and together hold every letter and digit of the string in order |
| Slug.SlugifyKeepsLettersAndDigits | src/components/ServerSettingsModal.tsx:97-102 | the slug's letters and digits are exactly those of the trimmed, lower-cased name, in order |
| Layout.NormalizeCategoryNameSpec | src/internal/store/legacy/shared.ts:1187 | a normalised name is never blank, is the trimmed input when that is not blank, and normalising it again changes nothing |
| Layout.CategoryNameIsFixed | src/internal/store/legacy/shared.ts:1187 | a trimmed non-blank name is its own normalisation |
| Layout.ToCategoryIdSpec | src/internal/store/legacy/shared.ts:1189-1194 | the id is a non-empty slug when the name has a letter or digit, and the fresh `cat_…` id otherwise |
| Layout.PermutedCategories | src/internal/store/legacy/shared.ts:1210 | sorting the categories keeps the same members and ids, and distinct ids stay distinct |
| Layout.DedupedSpec | src/internal/store/legacy/shared.ts:1197-1209 | after the two filters and the map, ids are distinct, are exactly the non-empty input ids, and names are normalised |
| Layout.WithDefaultSpec | src/internal/store/legacy/shared.ts:1212-1214 | `"channels"` is present afterwards, put first when it was missing, and ids stay distinct and non-empty |
| Layout.NormalizeLayoutCategoriesSpec | src/internal/store/legacy/shared.ts:1196-1217 | distinct non-empty ids, `"channels"` among them (first when it was missing), orders exactly `0..n-1`, normalised names, and ids that are the non-empty input ids plus `"channels"` |
| Layout.NormalizeLayoutCategoriesNames | src/internal/store/legacy/shared.ts:1197-1216 | a kept category carries the normalised name of the first input category with its id (later duplicates lose); the only other category is the inserted `"channels"` with its default name |
| Layout.NormalizeLayoutCategoriesIdempotent | src/internal/store/legacy/shared.ts:1196-1217 | a normalised category list is left unchanged, so normalising is idempotent |
| Placements.FallbackCategory | src/internal/store/legacy/shared.ts:1345 | `room.category?.trim() \|\| "channels"` is never empty |
| Placements.NonDm | src/internal/store/legacy/shared.ts:1342 | keeps exactly the non-DM rooms |
| Placements.PlaceAllKeys | src/internal/store/legacy/shared.ts:1341-1357 | the placed rooms are exactly the requested ones |
| Placements.PlaceAllCategories | src/internal/store/legacy/shared.ts:1341-1357 | every placement's category is one that was requested |
| Placements.PlaceKeepsOthers | src/internal/store/legacy/shared.ts:1355 | placing one room leaves every other placement as it was |
| Placements.PlaceOrderAbove | src/internal/store/legacy/shared.ts:1348-1356 | a room placed into a category goes after every room already placed there |
| Placements.PlaceAllKeepsCategory | src/internal/store/legacy/shared.ts:1341-1357 | with distinct room ids, every room keeps the category it asked for |
| Placements.PlaceAllIncreasing | src/internal/store/legacy/shared.ts:1348-1356 | with distinct room ids, orders strictly increase in request order within each category |
| Placements.PlaceAllOrdersIncrease | src/internal/store/legacy/shared.ts:1348-1356 | the same increase, stated over the placed map |
| Hydration.DerivedCategoryIds | src/internal/store/legacy/shared.ts:1220-1234 | the derived category ids are distinct, non-empty, and never an empty list (`"channels"` alone without rooms) |
| Hydration.DeriveSpec | src/internal/store/legacy/shared.ts:1219-1259 | a derived layout has normalised categories and places exactly the non-DM rooms, each in one of its categories |
| Hydration.HydrateSpec | src/internal/store/legacy/shared.ts:1334-1364 | normalised categories; placements exactly for the non-DM rooms; every placement's category exists in the categories, and its order is non-negative |
| Hydration.HydrateRequestsAllowed | src/internal/store/legacy/shared.ts:1345-1347 | every room asks for a known category, falling back to `"channels"` |
| Hydration.HydrateIncreasing | src/internal/store/legacy/shared.ts:1348-1356 | with distinct non-DM room ids, orders strictly increase in room order within each category |
| Hydration.HydrateRequestIds | src/internal/store/legacy/shared.ts:1341-1343 | the rooms placed are the non-DM rooms, in order |
| RoomOrder.GetOrderedSpec | src/internal/store/legacy/shared.ts:1423-1427 | the ordered ids of a category are exactly its rooms, each once, in non-decreasing order |
| RoomOrder.WithRoomOrderKeys | src/internal/store/legacy/shared.ts:1429-1433 | writing an order keeps the categories, adds exactly the listed rooms, and leaves every unlisted room as it was |
| RoomOrder.WithRoomOrderPlacements | src/internal/store/legacy/shared.ts:1429-1433 | with distinct ids, the i-th listed room ends up in the category with order i |
| RoomOrder.WithRoomOrderRoundTrip | src/internal/store/legacy/shared.ts:1423-1433 | reading back an order just written gives the same list, when the list is distinct and covers the category's rooms |
| RoomOrder.OtherCategoryUnchanged | src/internal/store/legacy/shared.ts:1423-1433 | writing one category's order leaves every other category's order as it was |
| RoomOrder.WithoutRoomSpec | src/internal/store/legacy/slices/roomsSliceState.ts:1126-1130 | taking a room out of its category's order renumbers the remaining rooms `0..m-1`, keeps the room's own placement for now, and changes nothing else |
| RoomOrder.RemoveKeepsSorted | src/internal/store/legacy/slices/roomsSliceState.ts:1126-1128 | dropping one room from an ordered list keeps it ordered and free of repetitions |
| RoomOrder.UnassignSpec | src/internal/store/legacy/slices/roomsSliceState.ts:562 | deleting a placement removes exactly that room and keeps every other placement |
| RoomOrder.UnassignAbsent | src/internal/store/legacy/slices/roomsSliceState.ts:562 | deleting a room that has no placement changes nothing |
| LayoutDrafts.LayoutDraft.constructor | src/internal/store/legacy/slices/roomsSliceState.ts:1120-1124 | the draft starts as a copy of the layout |
| LayoutDrafts.LayoutDraft.SetRoomOrderForCategory | src/internal/store/legacy/shared.ts:1429-1433 | the in-place walk over the ids ends with the layout `WithRoomOrder` describes |
| LayoutDrafts.LayoutDraft.DeleteRoom | src/internal/store/legacy/slices/roomsSliceState.ts:562 | `delete layout.rooms[roomId]` leaves the layout `Unassign` describes |
| ApplyLayout.LayoutToCategoriesSpec | src/internal/store/legacy/shared.ts:1388-1393 | the category list has distinct non-empty ids including `"channels"`, the i-th has order i, and its ids are the layout's non-empty ids plus `"channels"` |
| ApplyLayout.LayoutToCategoriesOfNormalized | src/internal/store/legacy/shared.ts:1388-1393 | for already normalised categories, the list is exactly those categories numbered in order |
| ApplyLayout.RoomBeforePreorder | src/internal/store/legacy/shared.ts:1377-1386 | the room comparator is a total preorder, so the stable sort is well defined |
| ApplyLayout.ApplyLayoutToRoomsSpec | src/internal/store/legacy/shared.ts:1366-1386 | the result is a permutation of the rooms with their placements filled in; DMs come last and in name order; the other rooms are in non-decreasing sort order, and in name order where the sort orders are equal |
| ApplyLayout.GetSpaceRooms | src/internal/store/legacy/shared.ts:1405-1406 | keeps exactly the rooms of the space |
| ApplyLayout.OtherSpaceRooms | src/internal/store/legacy/shared.ts:1413 | keeps exactly the rooms of other spaces |
| ApplyLayout.SpaceSplit | src/internal/store/legacy/shared.ts:1405-1413 | the two sides of the split together are the original rooms, as a multiset |
| ApplyLayout.ApplyLayoutToSpaceRoomsSpec | src/internal/store/legacy/shared.ts:1408-1421 | other spaces' rooms come first, unchanged and in order, then the space's rooms with the layout applied; no room is lost or duplicated |
| ApplyLayout.FirstNonDm | src/internal/store/legacy/shared.ts:1448 | finds a non-DM room when there is one, and none only when every room is a DM |
| ApplyLayout.ResolveSpaceStateHostRoomIdSpec | src/internal/store/legacy/shared.ts:1435-1452 | no host exactly for an empty space id, or for the all-rooms space with no mapped host and no rooms; otherwise the space itself, its mapped host, or a room of the list, preferring a non-DM one after the current room |
| MoveItems.MoveItemPermutes | src/internal/store/legacy/shared.ts:1395-1403 | moving rearranges the list and nothing more |
| MoveItems.MoveItemSpec | src/internal/store/legacy/shared.ts:1395-1403 | the element lands at the target index, the elements between shift one towards the source, the rest stay put |
| MoveItems.MoveItemLands | src/internal/store/legacy/shared.ts:1398-1402 | the length is kept and the element lands at the target |
| MoveItems.MoveItemAdjacentSwaps | src/internal/store/legacy/shared.ts:1395-1403 | moving to a neighbouring index swaps the two elements |
| LayoutActions.CandidatesDiffer | src/internal/store/legacy/slices/roomsSliceState.ts:835-840 | different suffixes give different candidate ids, so the `-2`, `-3`, … search never repeats a candidate |
| LayoutActions.WithNewCategoryAppends | src/internal/store/legacy/slices/roomsSliceState.ts:842-845 | adding a fresh non-empty id with a normalised name to normalised categories appends it with the next order and changes nothing else |
| LayoutActions.DeleteCategoryCategories | src/internal/store/legacy/slices/roomsSliceState.ts:930-936 | after deleting a category other than `"channels"` the categories are normalised and are the old ones without it |
| LayoutActions.DeleteCategoryRooms | src/internal/store/legacy/slices/roomsSliceState.ts:938-940 | `"channels"` lists its old rooms followed by the deleted category's rooms, each group in its old order; the deleted category reads back empty; no room is lost; rooms of other categories are untouched |
| LayoutActions.MovedCategoriesSpec | src/internal/store/legacy/slices/roomsSliceState.ts:980-986 | moving a category and renumbering gives a normalised list, which the final normalisation leaves alone |
| LayoutActions.MoveCategoryByStepNoop | src/internal/store/legacy/slices/roomsSliceState.ts:963-978 | the action is a no-op exactly for `"channels"`, a missing category, a target index out of range, or a `"channels"` target |
| LayoutActions.MoveCategoryByStepSwaps | src/internal/store/legacy/slices/roomsSliceState.ts:973-988 | otherwise the category and its neighbour trade places and the orders are `0..n-1` |
| LayoutActions.ReorderCategoryNoop | src/internal/store/legacy/slices/roomsSliceState.ts:1011-1025 | the action is a no-op exactly when source equals target, either is `"channels"`, or either is missing |
| LayoutActions.ReorderCategoryMoves | src/internal/store/legacy/slices/roomsSliceState.ts:1022-1035 | otherwise the source lands at the target's index, the others shift as `moveItem` shifts them, and the orders are `0..n-1` |
| LayoutActions.MovedCategoryLands | src/internal/store/legacy/slices/roomsSliceState.ts:1027-1033 | moving category `s` to index `t` puts it there and keeps the list normalised |
| LayoutActions.MoveRoomByStepNoop | src/internal/store/legacy/slices/roomsSliceState.ts:1067-1074 | the action is a no-op exactly for an unplaced room or a room already at the end it moves towards |
| LayoutActions.MoveRoomByStepSwaps | src/internal/store/legacy/slices/roomsSliceState.ts:1070-1082 | otherwise the room swaps with its neighbour in its own category, and every other category reads back as before |
| LayoutActions.MoveRoomToCategoryNoop | src/internal/store/legacy/slices/roomsSliceState.ts:1114-1118 | the action is a no-op exactly for an unplaced room, an unknown category, or the room's own category |
| LayoutActions.MoveRoomToCategorySource | src/internal/store/legacy/slices/roomsSliceState.ts:1126-1130 | the source category reads back as before without the room, renumbered from 0 |
| LayoutActions.MoveRoomToCategoryTarget | src/internal/store/legacy/slices/roomsSliceState.ts:1129-1131 | the target category reads back as before with the room appended; every other category is unchanged |
| LayoutActions.InsertBeforeSpec | src/internal/store/legacy/slices/roomsSliceState.ts:1183-1189 | inserting a new room keeps the list free of repetitions, right in front of the target when the target is listed and at the end otherwise |
| LayoutActions.ReorderRoomDestination | src/internal/store/legacy/slices/roomsSliceState.ts:1155-1169 | no destination exactly when source equals target, either room is unplaced, or the destination category is unknown |
| LayoutActions.ReorderRoomPlacesBefore | src/internal/store/legacy/slices/roomsSliceState.ts:1154-1190 | (corrected) the source room sits right in front of the target in the destination, whose other rooms keep their old order |
| LayoutActions.ReorderRoomSourceCategory | src/internal/store/legacy/slices/roomsSliceState.ts:1177-1180 | moving into another category leaves the old category in its old order without the room, renumbered from 0 |
| LayoutActions.ReorderRoomAgreesAcrossCategories | src/internal/store/legacy/slices/roomsSliceState.ts:1177-1190 | across categories the code as written and the corrected version give the same layout |
| LayoutActions.ReorderRoomWithinCategoryIntended | src/internal/store/legacy/slices/roomsSliceState.ts:1154-1190 | (corrected) dragging `a` onto `c` in `[a, b, c]` gives `[b, a, c]` |
| LayoutActions.ReorderRoomWithinCategoryAsWritten | src/internal/store/legacy/slices/roomsSliceState.ts:1177-1190 | (as written) dragging `a` onto `c` in `[a, b, c]` leaves `[a, b, c]` |
| LayoutActions.ReorderRoomWithinCategoryIsNoop | src/internal/store/legacy/slices/roomsSliceState.ts:1177-1190 | the two side by side: as written the order stays `[a, b, c]`, corrected it becomes `[b, a, c]` |
| RoomDeletion.WithoutRoomId | src/internal/store/legacy/slices/roomsSliceState.ts:548-550 | keeps exactly the rooms with another id |
| RoomDeletion.FirstId | src/internal/store/legacy/slices/roomsSliceState.ts:565 | the first room's id, present exactly when there is a room |
| RoomDeletion.DeletedRoomCategory | src/internal/store/legacy/slices/roomsSliceState.ts:547 | the room's category, or `"channels"` when it has none |
| RoomDeletion.DeleteRoomLayoutSpec | src/internal/store/legacy/slices/roomsSliceState.ts:547-562 | the published layout is the hydrated layout of the remaining rooms with the category rewritten as `0..m-1`, the deleted room without a placement, and every other placement unchanged |
| RoomDeletion.RewriteWithoutAbsent | src/internal/store/legacy/slices/roomsSliceState.ts:558-562 | writing a category back without a room that has no placement renumbers it and changes nothing else |
| RoomDeletion.FallbackHostRoomIdSpec | src/internal/store/legacy/slices/roomsSliceState.ts:563-566 | the fallback host is a remaining room, a non-DM one when there is one, and `""` only without rooms |
| RoomDeletion.NextCurrentRoomIdSpec | src/internal/store/legacy/slices/roomsSliceState.ts:610-617 | the new current room is never the deleted one: unchanged when another room was current, else the first remaining room of the space, else some remaining room, else `""` |
| RoomDeletion.AppliedRoomsComeFrom | src/internal/store/legacy/slices/roomsSliceState.ts:612 | every room after applying the layout is a remaining room with the same id and space |
| RoomDeletion.NextStateHostRoomIdSpec | src/internal/store/legacy/slices/roomsSliceState.ts:614-625 | the deleted room stops being its space's host: another host is kept, and a deleted host is replaced by a remaining non-DM room of the space when there is one |
| RoomsSlices.PublishedStoresLayout | src/internal/store/legacy/slices/roomsSliceState.ts:856-866 | after a layout is committed, the space stores exactly that layout and its categories, the room list is the other spaces' rooms plus the space's rooms carrying the new placements, and the current room and space do not change |
| RoomsSlices.UnpublishedKeepsState | src/internal/store/legacy/slices/roomsSliceState.ts:846-853 | an action that computes no layout (an early return) or whose send fails leaves the slice as it was, and only a failed send adds a notification |
| RoomsSlices.FreshCategoryId | src/internal/store/legacy/slices/roomsSliceState.ts:835-840 | the `while` loop ends on the least suffix whose candidate id is free: the returned id is not among the category ids |
| RoomsSlices.CreateCategoryAppends | src/internal/store/legacy/slices/roomsSliceState.ts:819-845 | with a current space, the created category gets a non-empty id used by no existing category and is appended with the normalised name and the next order, the room placements unchanged |
| RoomsSlices.NewCategoryAppends | src/internal/store/legacy/slices/roomsSliceState.ts:835-845 | on normalised categories, the fresh id is unused and the new list is the old one with the new category appended at order `n` |
| RoomsSlices.RemoteDeletion | src/internal/store/legacy/slices/roomsSliceState.ts:582-595 | a hard delete that throws stops the deletion with its error message; one that completes lets it go on |
| RoomsSlices.DeleteRoomProceeds | src/internal/store/legacy/slices/roomsSliceState.ts:522-669 | once the gates pass, the room exists and is not a DM; the slices change (to the deleted-room state) exactly when the hard delete went through, and the notifications are those of the remaining steps |
| RoomsSlices.DeleteRoomStopped | src/internal/store/legacy/slices/roomsSliceState.ts:524-545 | a deletion stopped at a gate (unknown room, DM, no permission, no server context) changes neither slice and pushes only its refusal |
| RoomsSlices.FailedHardDeleteKeepsSlices | src/internal/store/legacy/slices/roomsSliceState.ts:571-595 | missing session credentials or a failed hard delete leave both slices unchanged and push exactly one "Failed to permanently delete channel" notification with the credentials text or the thrown message |
| RoomsSlices.RoomDeletedRemovesRoom | src/internal/store/legacy/slices/roomsSliceState.ts:609-612 | after a deletion no room has the deleted id, and every other room is still listed |
| RoomsSlices.RoomDeletedForgetsRoom | src/internal/store/legacy/slices/roomsSliceState.ts:609-662 | after a deletion the room id is in none of the per-room maps, is not the current room and is not its space's state host |
| RoomsSlices.DeletionCurrentRoomIdMoves | src/internal/store/legacy/slices/roomsSliceState.ts:613-617 | the current room after a deletion is never the deleted room |
| RoomsSlices.DeletionHostMoves | src/internal/store/legacy/slices/roomsSliceState.ts:614-627 | the space's state host after a deletion is never the deleted room |
| RoomsSlices.DeletionFallbackMoves | src/internal/store/legacy/slices/roomsSliceState.ts:613 | the fallback room of a deletion is never the deleted room |
| RoomsSlices.AppliedKeepsRoom | src/internal/store/legacy/shared.ts:1416-1421 | applying a layout to a space keeps every room, with its id |
| RoomsSlices.CurrentRoomDeletedFallsBack | src/internal/store/legacy/slices/roomsSliceState.ts:613-629 | deleting the current room makes the first remaining room of its space current (or `""` when no room is left), drops the room's messages and clears the reply target and the open thread |
| RoomsSlices.LatestMessageTimestampIsMax | src/internal/store/legacy/shared.ts:1495-1496 | for messages in time order, the last message's timestamp is the latest one and belongs to a message |
| RoomsSlices.WithRoomRead | src/internal/store/legacy/slices/roomsSliceState.ts:400-402 | the rooms keep their order; the rooms with the given id get an unread count of 0 and the others are unchanged |
| RoomsSlices.WithRoomReadIdempotent | src/internal/store/legacy/slices/roomsSliceState.ts:400-402 | marking a room read twice is marking it once, and no room of that id keeps unread messages |
| RoomsSlices.DeleteCategoryDraft | src/internal/store/legacy/slices/roomsSliceState.ts:924-940 | the copy-then-edit steps of `deleteCategory` build exactly `DeleteCategoryLayout` |
| RoomsSlices.MoveRoomByStepDraft | src/internal/store/legacy/slices/roomsSliceState.ts:1066-1082 | the draft steps of `moveRoomByStep` build exactly `MoveRoomByStepLayout` (None for its early returns) |
| RoomsSlices.MoveRoomToCategoryDraft | src/internal/store/legacy/slices/roomsSliceState.ts:1113-1131 | the draft steps of `moveRoomToCategory` build exactly `MoveRoomToCategoryLayout` |
| RoomsSlices.ReorderRoomDraft | src/internal/store/legacy/slices/roomsSliceState.ts:1162-1190 | the draft steps of `reorderRoom`, with the source room dropped from the destination order first, build exactly the corrected `ReorderRoomLayout` |
| RoomsSlices.DeleteRoomDraft | src/internal/store/legacy/slices/roomsSliceState.ts:551-562 | the draft steps of `deleteRoom` build exactly `DeleteRoomLayout` |
| RoomsSlices.CheckDeletion | src/internal/store/legacy/slices/roomsSliceState.ts:524-545 | the gate is the first check that fails, in the source's order, and for a deletion that goes on the host is the resolved state host of the room's space |
| RoomsSlices.PrepareDeletion | src/internal/store/legacy/slices/roomsSliceState.ts:547-569 | the layout without the room, the room the layout is sent to and the slice after the deletion are the ones `deleteRoom` computes |
| RoomsSlices.RoomsSlice.constructor | src/internal/store/legacy/slices/roomsSliceState.ts:92-102 | the initial slice: the given rooms, the first space (or the default one), the first room's id (or `""`), empty per-space maps and the given read markers |
| RoomsSlices.RoomsSlice.SetState | src/internal/store/legacy/slices/roomsSliceState.ts:856-866 | the slice becomes exactly the state a `set` updater returns |
| RoomsSlices.RoomsSlice.Publish | src/internal/store/legacy/slices/roomsSliceState.ts:846-866 | a computed layout is committed unless its send failed; a failed send adds the action's failure notification; other slices' flags are unchanged |
| RoomsSlices.RoomsSlice.Commit | src/internal/store/legacy/slices/roomsSliceState.ts:856-866 | the `set` of a layout in the current space |
| RoomsSlices.RoomsSlice.CreateCategory | src/internal/store/legacy/slices/roomsSliceState.ts:819-867 | `createCategory`: the suffix is the least free one, and the slice and notifications are the publish of the created layout |
| RoomsSlices.RoomsSlice.DeleteCategory | src/internal/store/legacy/slices/roomsSliceState.ts:911-962 | `deleteCategory`: nothing for `"channels"` or without a space; a "Category delete unavailable" notification without permission; otherwise the publish of `DeleteCategoryLayout` |
| RoomsSlices.RoomsSlice.MoveCategoryByStep | src/internal/store/legacy/slices/roomsSliceState.ts:963-1010 | `moveCategoryByStep`: the publish of the moved categories, nothing on the early returns |
| RoomsSlices.RoomsSlice.ReorderCategory | src/internal/store/legacy/slices/roomsSliceState.ts:1011-1057 | `reorderCategory`: the publish of the reordered categories, nothing on the early returns |
| RoomsSlices.RoomsSlice.MoveRoomByStep | src/internal/store/legacy/slices/roomsSliceState.ts:1058-1104 | `moveRoomByStep`: the publish of the swapped room order, nothing at either end |
| RoomsSlices.RoomsSlice.MoveRoomToCategory | src/internal/store/legacy/slices/roomsSliceState.ts:1105-1153 | `moveRoomToCategory`: the publish of the room moved to the end of the target category |
| RoomsSlices.RoomsSlice.ReorderRoom | src/internal/store/legacy/slices/roomsSliceState.ts:1154-1212 | `reorderRoom`, corrected as under Findings: the publish of the source room placed before the target |
| RoomsSlices.RoomsSlice.DeleteRoom | src/internal/store/legacy/slices/roomsSliceState.ts:522-669 | `deleteRoom`: the rooms slice, the messages slice and the notifications are the deletion's state, messages and notices for the permission, the credentials and the hard-delete and layout-send outcomes |
| RoomsSlices.RoomsSlice.RefuseDeletion | src/internal/store/legacy/slices/roomsSliceState.ts:524-545 | a refused deletion pushes its refusal and changes nothing else |
| RoomsSlices.RoomsSlice.FinishDeletion | src/internal/store/legacy/slices/roomsSliceState.ts:571-669 | after the gates, the slices become the deleted-room state only when the hard delete went through; the notifications follow the outcome and the layout send |
| RoomsSlices.RoomsSlice.CommitDeletion | src/internal/store/legacy/slices/roomsSliceState.ts:609-669 | a successful deletion sets both slices and pushes "Channel deleted" with "<name> was permanently removed." |
| RoomsSlices.RoomsSlice.MarkRoomRead | src/internal/store/legacy/slices/roomsSliceState.ts:390-405 | the target room (the given one, else the current one; nothing without one) gets its latest message time as read marker and an unread count of 0 |
| AdminSlices.CappedAudit | src/internal/store/legacy/slices/adminSliceState.ts:109 | the log keeps its first 250 events (all of them when there are fewer), in order |
| AdminSlices.SpaceHost | src/internal/store/legacy/slices/adminSliceState.ts:34-38 | a host is returned only for a non-empty space id, and it is a non-empty room id |
| AdminSlices.StoredOverridesSpec | src/internal/store/legacy/slices/adminSliceState.ts:75 | the overrides an action starts from are well formed: the defaults for a space without any, and the stored ones when they are well formed |
| AdminSlices.FindUser | src/internal/store/legacy/slices/adminSliceState.ts:53 | a found user is in the list with the id; none is found exactly when no user has it |
| AdminSlices.SessionAfterSaveIdempotent | src/internal/store/legacy/slices/adminSliceState.ts:50-53 | saving the same settings twice leaves the members and `me` as saving once does |
| AdminSlices.InitialAdminStateValid | src/internal/store/legacy/shared.ts:1533-1552 | every space starts with well-formed default overrides and an empty (capped) audit log |
| AdminSlices.RuleChangedOverrides | src/internal/store/legacy/slices/adminSliceState.ts:75-91 | after a rule change the space's overrides are well formed, the action holds the new rule (or, for `inherit`, is gone), and server settings and other spaces' overrides are unchanged |
| AdminSlices.RuleChangedAudit | src/internal/store/legacy/slices/adminSliceState.ts:102-125 | a rule change prepends exactly one audit entry, keeps the older entries in order, keeps at most 250, and leaves other spaces' logs alone |
| AdminSlices.RuleChangedValid | src/internal/store/legacy/slices/adminSliceState.ts:75-125 | a rule change keeps every stored override well formed and every audit log within 250 entries |
| AdminSlices.WithRuleTwice | src/internal/store/legacy/slices/adminSliceState.ts:81-86 | setting the same action twice in a rule set keeps the later rule |
| AdminSlices.WithEntryTwice | src/internal/store/legacy/slices/adminSliceState.ts:87-91 | storing a rule set under the same id twice keeps the later one |
| AdminSlices.EntryRuleTwice | src/internal/store/legacy/slices/adminSliceState.ts:81-91 | writing one id's action twice in a map of rule sets keeps the later rule |
| AdminSlices.LaterRuleWinsOn | src/internal/store/legacy/slices/adminSliceState.ts:76-91 | two rule writes on the same scope, id and action are the later write alone |
| AdminSlices.LaterRuleWins | src/internal/store/legacy/slices/adminSliceState.ts:68-126 | two changes to the same rule in a row store the overrides of the later change alone |
| AdminSlices.AdminSlice.constructor | src/internal/store/legacy/slices/adminSliceState.ts:30-32 | each given space starts with the default settings, the default overrides and an empty audit log |
| AdminSlices.AdminSlice.SetState | src/internal/store/legacy/slices/adminSliceState.ts:50-66 | the slice becomes exactly the updater's result |
| AdminSlices.AdminSlice.SaveServerSettings | src/internal/store/legacy/slices/adminSliceState.ts:33-67 | nothing without a space or host; a failed send only pushes "Failed to save server settings"; otherwise the normalised settings are stored, the host is recorded, roles are re-applied to the members when the space is current and `me` is refreshed |
| AdminSlices.AdminSlice.SetPermissionRule | src/internal/store/legacy/slices/adminSliceState.ts:68-126 | nothing without a space or host; a failed send only pushes the scope's failure; otherwise the overrides and audit log become the rule change |
| AdminSlices.AdminSlice.SetCategoryPermissionRule | src/internal/store/legacy/slices/adminSliceState.ts:68-126 | `setCategoryPermissionRule`: the category-scoped rule change with a `permission.category.update` audit entry by the signed-in user |
| AdminSlices.AdminSlice.SetRoomPermissionRule | src/internal/store/legacy/slices/adminSliceState.ts:127-185 | `setRoomPermissionRule`: the room-scoped rule change with a `permission.room.update` audit entry by the signed-in user |
| MessagesSlices.FindReaction | src/internal/store/legacy/slices/messagesSliceState.ts:211 | a found reaction is in the list with the emoji; none is found exactly when no reaction has it |
| MessagesSlices.WithEmojiUsers | src/internal/store/legacy/slices/messagesSliceState.ts:222-225 | the reactions keep their order; those with the emoji get the new reactors and the others are unchanged |
| MessagesSlices.WithoutEmoji | src/internal/store/legacy/slices/messagesSliceState.ts:226 | keeps exactly the reactions with another emoji |
| MessagesSlices.FindAfterAppend | src/internal/store/legacy/slices/messagesSliceState.ts:212-216 | a reaction appended for a new emoji is the one found for it |
| MessagesSlices.FindAfterWithEmojiUsers | src/internal/store/legacy/slices/messagesSliceState.ts:218-225 | after the reactors of an emoji are replaced, the reaction found for it carries the new reactors |
| MessagesSlices.ToggledReactionsFlips | src/internal/store/legacy/slices/messagesSliceState.ts:209-227 | toggling flips whether the user has reacted with the emoji, and no reaction with that emoji is left without reactors |
| MessagesSlices.WithoutEmojiAppend | src/internal/store/legacy/slices/messagesSliceState.ts:212-216 | appending a reaction for an emoji does not change the reactions with other emojis |
| MessagesSlices.WithoutEmojiOfWithEmojiUsers | src/internal/store/legacy/slices/messagesSliceState.ts:222-225 | changing one emoji's reactors does not change the reactions with other emojis |
| MessagesSlices.WithoutEmojiIdempotent | src/internal/store/legacy/slices/messagesSliceState.ts:226 | dropping an emoji twice is dropping it once |
| MessagesSlices.ToggledReactionsKeepsOthers | src/internal/store/legacy/slices/messagesSliceState.ts:209-227 | toggling one emoji keeps every reaction with another emoji, in order and with its reactors |
| MessagesSlices.WithToggledReaction | src/internal/store/legacy/slices/messagesSliceState.ts:209-228 | the messages keep their order; only those with the target id get the reaction toggled |
| MessagesSlices.WithToggledPin | src/internal/store/legacy/slices/messagesSliceState.ts:265-267 | the messages keep their order; only those with the target id have `pinned` negated |
| MessagesSlices.WithToggledPinTwice | src/internal/store/legacy/slices/messagesSliceState.ts:259-270 | toggling a pin twice gives the messages back |
| MessagesSlices.MessagesSlice.constructor | src/internal/store/legacy/slices/messagesSliceState.ts:44-48 | the slice starts with the given messages, no thread, no reply target and both panels closed |
| MessagesSlices.MessagesSlice.SetState | src/internal/store/legacy/slices/messagesSliceState.ts:306-317 | the slice becomes exactly the updater's result |
| MessagesSlices.MessagesSlice.TogglePins | src/internal/store/legacy/slices/messagesSliceState.ts:75 | only `showPins` changes, to its negation |
| MessagesSlices.MessagesSlice.StartReply | src/internal/store/legacy/slices/messagesSliceState.ts:472 | only the reply target changes, to the message |
| MessagesSlices.MessagesSlice.ClearReply | src/internal/store/legacy/slices/messagesSliceState.ts:473 | only the reply target changes, to none |
| MessagesSlices.MessagesSlice.ToggleReaction | src/internal/store/legacy/slices/messagesSliceState.ts:203-231 | without a Matrix client, only the current room's messages change, to the reaction toggled for the user on the target message |
| MessagesSlices.MessagesSlice.TogglePin | src/internal/store/legacy/slices/messagesSliceState.ts:259-270 | without a Matrix client, only the current room's messages change, with the target message's pin flipped |
| MessageActions.ThreadLatest | src/internal/store/legacy/slices/messagesSliceState.ts:55-60 | the latest reply time of a thread: the time of a reply, no earlier than any other reply, and none exactly when the thread has no replies |
| MessageActions.WithThreadViewed | src/internal/store/legacy/slices/messagesSliceState.ts:64-70 | sets one thread's viewed time in one room, keeping every other room's and thread's markers |
| MessageActions.ToggleThread | src/internal/store/legacy/slices/messagesSliceState.ts:49-74 | `null` closes the thread panel; a root id opens that thread and marks it viewed up to its latest reply (or now); otherwise the panel flips; nothing else changes |
| MessageActions.OpenThreadSeesAllReplies | src/internal/store/legacy/slices/messagesSliceState.ts:55-70 | after a thread is opened, no reply in it is later than its viewed marker |
| MessageActions.MessageSentMessages | src/internal/store/legacy/slices/messagesSliceState.ts:96-109 | the new message is appended to its room only, and the reply target is cleared |
| MessageActions.MessageSentRooms | src/internal/store/legacy/slices/messagesSliceState.ts:97-117 | the room is read up to the send time with no unread messages, other rooms are unchanged, and a reply's thread is marked viewed at that time |
| MessageActions.SendMessage | src/internal/store/legacy/slices/messagesSliceState.ts:76-128 | without a Matrix client, one message by the signed-in user (`sent` online, `queued` offline) is appended to the current room, the rooms slice is updated as above, and onboarding ends exactly when it was running and the body or attachments are non-empty |
| MessageActions.WithoutMessage | src/internal/store/legacy/slices/messagesSliceState.ts:311 | keeps exactly the messages with another id, and everything when none has it |
| MessageActions.WithoutMessageAppend | src/internal/store/legacy/slices/messagesSliceState.ts:311 | removal keeps the surviving messages in order: it distributes over concatenation |
| MessageActions.FindMessage | src/internal/store/legacy/slices/messagesSliceState.ts:293 | a found message is in the list with the id; none is found exactly when no message has it |
| MessageActions.RedactMessage | src/internal/store/legacy/slices/messagesSliceState.ts:288-323 | without a Matrix client, the message leaves the current room and one `message.redact` audit entry by the signed-in user is prepended to the space's log, capped at 250 |
| MessageActions.RedactKeepsAdminValid | src/internal/store/legacy/slices/messagesSliceState.ts:315 | prepending a redaction entry keeps every audit log within 250 entries |
| MessageActions.IncomingAlwaysMentions | src/internal/store/legacy/slices/messagesSliceState.ts:476-486 | the simulated body always mentions the signed-in user, so the mention notification is always pushed |
| MessageActions.WithUnreadIncrement | src/internal/store/legacy/slices/messagesSliceState.ts:493-495 | only the rooms with the id gain one unread message, in place |
| MessageActions.SimulateIncoming | src/internal/store/legacy/slices/messagesSliceState.ts:474-500 | a message from the first member (or `me`) is appended to the current room, that room gains one unread message, and a "Mention in #room" notification goes in front |
| UiSlices.Dismissed | src/internal/store/legacy/slices/uiSliceState.ts:39-42 | dismissing never adds notifications |
| UiSlices.DismissedMembers | src/internal/store/legacy/slices/uiSliceState.ts:41 | dismissing keeps exactly the notifications with another id |
| UiSlices.DismissedConcat | src/internal/store/legacy/slices/uiSliceState.ts:41 | dismissing works piece by piece, so the kept notifications stay in order |
| UiSlices.DismissedAbsent | src/internal/store/legacy/slices/uiSliceState.ts:41 | dismissing an id no notification has changes nothing |
| UiSlices.DismissedIdempotent | src/internal/store/legacy/slices/uiSliceState.ts:39-42 | dismissing twice is dismissing once |
| UiSlices.ToggledParity | src/internal/store/legacy/slices/uiSliceState.ts:32 | an even number of member-list toggles restores the flag, an odd number negates it |
| UiSlices.UiSlice.constructor | src/internal/store/legacy/slices/uiSliceState.ts:26-31 | members shown, settings closed on the overview tab, empty search, online, no notifications |
| UiSlices.UiSlice.ToggleMembers | src/internal/store/legacy/slices/uiSliceState.ts:32 | only `showMembers` changes, to its negation |
| UiSlices.UiSlice.OpenServerSettings | src/internal/store/legacy/slices/uiSliceState.ts:33-34 | the settings open on the given tab, `overview` by default; nothing else changes |
| UiSlices.UiSlice.CloseServerSettings | src/internal/store/legacy/slices/uiSliceState.ts:35 | the settings close and keep their tab |
| UiSlices.UiSlice.SetServerSettingsTab | src/internal/store/legacy/slices/uiSliceState.ts:36 | only the tab changes |
| UiSlices.UiSlice.SetSearchQuery | src/internal/store/legacy/slices/uiSliceState.ts:37 | only the search query changes |
| UiSlices.UiSlice.SetOnline | src/internal/store/legacy/slices/uiSliceState.ts:38 | only the online flag changes |
| UiSlices.UiSlice.DismissNotification | src/internal/store/legacy/slices/uiSliceState.ts:39-42 | the notifications become those with another id, in order; the flags are unchanged |
| UiSlices.UiSlice.PushNotification | src/internal/store/legacy/slices/uiSliceState.ts:43-46 | the new notification goes in front of the others; the flags are unchanged |
| SettingsSlices.InitialOnboardingStep | src/internal/store/legacy/slices/settingsSliceState.ts:57 | onboarding starts at step 0 exactly when the loaded preferences do not mark it completed, and is `null` otherwise |
| SettingsSlices.ProfileNameSpec | src/internal/store/legacy/slices/settingsSliceState.ts:112 | the stored name has at most 32 characters, is a prefix of the trimmed input, is all of it when it fits, and is empty exactly for a blank input |
| SettingsSlices.AboutSpec | src/internal/store/legacy/slices/settingsSliceState.ts:133 | the same for the about text with 190 characters |
| SettingsSlices.SanitizedAvatar | src/internal/store/legacy/slices/settingsSliceState.ts:139 | an avatar is kept, unchanged, exactly when it is a string starting with `data:image` |
| SettingsSlices.AvatarInitial | src/internal/store/legacy/shared.ts:526 | one character: the upper-cased first character of the name, or `?` for an empty name |
| SettingsSlices.ApplyProfileToUserSpec | src/internal/store/legacy/shared.ts:528-545 | the profile keeps the user's id, status and roles, sets the avatar URL, replaces the name with the trimmed 32-character name unless it is blank, and the initial follows the name |
| SettingsSlices.ApplyProfileToUsers | src/internal/store/legacy/shared.ts:547-555 | only the users with the signed-in id get the profile, in place; the others are unchanged |
| SettingsSlices.SettingsSlice.constructor | src/internal/store/legacy/slices/settingsSliceState.ts:57-60 | the profile fields come from the loaded preferences and onboarding starts as they say |
| SettingsSlices.SettingsSlice.SetProfileDisplayName | src/internal/store/legacy/slices/settingsSliceState.ts:111-124 | the trimmed 32-character name is stored and saved with the other preferences, and the signed-in user and their member entry get the profile |
| SettingsSlices.SettingsSlice.SetProfileAbout | src/internal/store/legacy/slices/settingsSliceState.ts:132-137 | the trimmed 190-character about text is stored and saved; nothing else changes |
| SettingsSlices.SettingsSlice.SetProfileAvatarDataUrl | src/internal/store/legacy/slices/settingsSliceState.ts:138-151 | only an image data URL is stored (else none), it is saved, and it becomes the avatar URL of the signed-in user and their member entry |
| SettingsSlices.SettingsSlice.CompleteOnboarding | src/internal/store/legacy/slices/settingsSliceState.ts:178-185 | onboarding ends and is saved as completed, so reloading the saved preferences starts without it |
| SettingsSlices.ReloadKeepsOnboarding | src/internal/store/legacy/shared.ts:373 | saving and reloading gives back an onboarding step of `null` or `0` unchanged |
| SessionSlices.SessionSlice.constructor | src/internal/store/legacy/slices/sessionSliceState.ts:62-63 | the session starts with the given signed-in user and member list |
| SessionSlices.SessionSlice.SetState | src/internal/store/legacy/slices/sessionSliceState.ts:62-63 | both fields become exactly the updater's result |
| PermissionActions.AllActionsComplete | src/types.ts:114-121 | the six actions are all there are |
| PermissionActions.ActionNameInjective | src/types.ts:114-121 | different actions have different keys |
| PermissionService.NormalizeNumberRecord | src/services/permissionService.ts:49-60 | a missing or non-object value gives no entries; otherwise exactly the numeric members are kept, with their values |
| PermissionService.ToValidNumber | src/services/permissionService.ts:62-63 | a number is kept; anything else gives the fallback |
| PermissionService.ParsePowerLevelsSpec | src/services/permissionService.ts:65-79 | non-object content gives the defaults; a missing `redact` or `state_default` falls back to 50; the user and event tables keep exactly their numeric entries |
| PermissionService.UserPowerLevel | src/services/permissionService.ts:81-82 | the user's own level when listed, else `users_default` |
| PermissionService.ParsedUserPowerLevel | src/services/permissionService.ts:39-82 | read from raw power-levels content, a user's level is the number listed for them under `users`, else a number `users_default`, else 0 |
| PermissionService.DeriveRole | src/services/permissionService.ts:103-112 | guest exactly when not joined; owner only at the admin level or above; moderator only from the moderator level up to below the admin level; member only below both |
| PermissionService.DeriveRoleMonotone | src/services/permissionService.ts:103-112 | for joined users, a higher power level never gives a lower role |
| PermissionService.ResolveRuleSpec | src/services/permissionService.ts:114-124 | a room `allow`/`deny` wins, else a category one, else `inherit`; the result is `deny` exactly when the deciding rule is |
| PermissionService.ApplyRule | src/services/permissionService.ts:126-130 | an action stays permitted exactly when it was and the rule is not `deny`; `allow` grants nothing |
| PermissionService.BuildPermissionSnapshotSpec | src/services/permissionService.ts:132-157 | the snapshot has every action, and an action is permitted exactly when the user has joined, their level reaches the action's required level and the resolved rule is not `deny` |
| PermissionService.NotJoinedMayDoNothing | src/services/permissionService.ts:103-149 | a user who has not joined is a guest and may do nothing |
| PermissionService.RulesOnlyRestrict | src/services/permissionService.ts:143-149 | category and room rules only take permissions away, and change nothing when neither decides |
| PermissionService.CanRedactMessageSpec | src/services/permissionService.ts:159-169 | nobody who has not joined may redact; a joined user may redact their own messages; another's message needs an owner or moderator holding `redact` |
| PermissionService.RedactOthersNeedsPower | src/services/permissionService.ts:132-169 | redacting someone else's message needs membership, a level at the redact level and at the moderator or admin level, and no `deny` rule |
| PermissionService.RolesFromPowerLevelsExample | src/services/permissionService.ts:84-157 | with levels 100/50/0, the owner may do everything, a member may send and react but not pin, redact or manage, a guest nothing, and a room `deny` beats a category `allow` |
| PermissionOverrides.NormalizePermissionRule | src/internal/store/legacy/shared.ts:1093-1098 | a rule is read only from its own spelling |
| PermissionOverrides.NormalizePermissionRuleRoundTrip | src/internal/store/legacy/shared.ts:1093-1098 | each of `inherit`, `allow` and `deny` reads back as itself |
| PermissionOverrides.RuleSetOfSpec | src/internal/store/legacy/shared.ts:1100-1126 | a raw rule set keeps exactly the actions set to `allow` or `deny` in an object, with those rules |
| PermissionOverrides.NormalizeEntriesSpec | src/internal/store/legacy/shared.ts:1142-1161 | an entry survives exactly when it is an object setting some action to `allow` or `deny`, keeps exactly those rules, and is compact |
| PermissionOverrides.NormalizePermissionOverridesSpec | src/internal/store/legacy/shared.ts:1128-1168 | a non-object gives the empty overrides; an object gives its normalised category and room entries; the result is always well formed |
| PermissionOverrides.RawRuleOfEncoded | src/internal/store/legacy/shared.ts:1109 | each action of an encoded rule set reads back as the rule stored for it |
| PermissionOverrides.RuleSetRoundTrip | src/internal/store/legacy/shared.ts:1100-1126 | a rule set without `inherit` reads back as itself |
| PermissionOverrides.EntriesRoundTrip | src/internal/store/legacy/shared.ts:1142-1151 | compact, non-empty entries read back as themselves |
| PermissionOverrides.NormalizeEntriesOf | src/internal/store/legacy/shared.ts:1142-1151 | raw entries that each read back as a non-empty rule set normalise to exactly those rule sets |
| PermissionOverrides.OverridesRoundTrip | src/internal/store/legacy/shared.ts:1128-1168 | well-formed overrides survive being sent as a state event and read back |
| PermissionOverrides.NormalizePermissionOverridesIdempotent | src/internal/store/legacy/shared.ts:1128-1168 | normalising already normalised overrides changes nothing |
| PermissionOverrides.WithRuleSpec | src/internal/store/legacy/slices/adminSliceState.ts:81-86 | `inherit` removes the action and `allow`/`deny` set it; other actions are unchanged; the set becomes empty exactly when `inherit` removes its last action; compactness is kept |
| PermissionOverrides.WithEntryRuleSpec | src/internal/store/legacy/slices/adminSliceState.ts:81-91 | writing a rule into one entry changes no other entry; an entry left empty is deleted; compact entries stay compact |
| PermissionOverrides.WithCategoryRuleSpec | src/internal/store/legacy/slices/adminSliceState.ts:75-91 | setting a category rule changes only that category's entry, leaves room rules alone and keeps the overrides well formed |
| PermissionOverrides.WithRoomRuleSpec | src/internal/store/legacy/slices/adminSliceState.ts:134-150 | setting a room rule changes only that room's entry, leaves category rules alone and keeps the overrides well formed |
| ServerConfig.Clamp | src/internal/store/legacy/shared.ts:690-691 | with `min <= max` the result lies in the range, is the value when it is inside, and the nearer bound otherwise |
| ServerConfig.ClampedNumber | src/internal/store/legacy/shared.ts:718-722 | a number inside the range is kept and one outside it becomes the nearer bound; `+Infinity` becomes the maximum and `-Infinity` the minimum; anything that is not a number gives the fallback, clamped; with `min <= max` the result is always in range |
| ServerConfig.ObjectItems | src/internal/store/legacy/shared.ts:607 | only object items are kept |
| ServerConfig.RoleCandidates | src/internal/store/legacy/shared.ts:608-619 | one role per object item, the `i`-th made from the `i`-th item with `freshId(i)` when it needs an id |
| ServerConfig.FirstPerIdMembers | src/internal/store/legacy/shared.ts:620-624 | every kept role comes from the input and has an id not yet seen |
| ServerConfig.FirstPerIdDistinct | src/internal/store/legacy/shared.ts:620-624 | the kept roles have distinct ids |
| ServerConfig.FirstPerIdCovers | src/internal/store/legacy/shared.ts:620-624 | every id of the input not yet seen is kept |
| ServerConfig.FirstPerIdFirst | src/internal/store/legacy/shared.ts:620-624 | each kept role is the first role of the input with its id |
| ServerConfig.FirstPerIdSpec | src/internal/store/legacy/shared.ts:620-624 | the `seen` filter keeps, for each id, exactly the first role with it, and nothing else |
| ServerConfig.KeepFirstPerId | src/internal/store/legacy/shared.ts:590-624 | the loop over the candidates with a growing `seen` set keeps exactly the first role per id |
| ServerConfig.NormalizeRoleDefinitionsSpec | src/internal/store/legacy/shared.ts:588-625 | normalised roles have distinct ids, a `#rrggbb` colour or the default, power levels in 0..100, and every object item's id is represented |
| ServerConfig.Strings | src/internal/store/legacy/shared.ts:636 | keeps exactly the string items |
| ServerConfig.KeepIn | src/internal/store/legacy/shared.ts:638 | keeps exactly the ids in the valid set |
| ServerConfig.KeepInDistinct | src/internal/store/legacy/shared.ts:637-638 | filtering ids without repeats leaves them without repeats |
| ServerConfig.NormalizeRoleAssignmentsSpec | src/internal/store/legacy/shared.ts:627-646 | every kept user has a non-empty list without repeats, holding exactly the valid string role ids of the input |
| ServerConfig.NormalizeServerSettingsSpec | src/internal/store/legacy/shared.ts:693-768 | the levels are clamped to 0..100, link expiry to 1..168 hours and audit retention to 7..365 days; role ids are unique; assignments name only defined roles, once each; an unknown safety level reads as `members_only` |
| ServerConfig.RoleById | src/internal/store/legacy/shared.ts:651 | a found role is a definition with the id; none is found exactly when no definition has it |
| ServerConfig.AssignedRoles | src/internal/store/legacy/shared.ts:659-661 | the assigned roles are all definitions |
| ServerConfig.NoRolesGranted | src/internal/store/legacy/shared.ts:659-661 | without definitions no role is granted |
| ServerConfig.CustomRoleNames | src/internal/store/legacy/shared.ts:656-658 | every custom role name is the name of a granted role |
| ServerConfig.HighestRole | src/internal/store/legacy/shared.ts:659-662 | there is a highest role exactly when some role is granted |
| ServerConfig.HighestRoleSpec | src/internal/store/legacy/shared.ts:662 | the highest role is a granted role, none is higher, and with a stable sort it is the first of the highest level |
| ServerConfig.UserRoles | src/internal/store/legacy/shared.ts:655-661 | a user's roles are all definitions |
| ServerConfig.ApplyServerRolesToUsers | src/internal/store/legacy/shared.ts:648-670 | every user gets the custom roles in place, and the list keeps its length and order |
| ServerConfig.WithoutNames | src/internal/store/legacy/shared.ts:682 | keeps exactly the role names that are not custom role names |
| ServerConfig.StripServerRolesFromUsers | src/internal/store/legacy/shared.ts:672-685 | every user loses the custom role names and the role colour, in place |
| ServerConfig.WithoutNamesAppend | src/internal/store/legacy/shared.ts:682 | removing names distributes over concatenation |
| ServerConfig.WithoutNamesNone | src/internal/store/legacy/shared.ts:682 | removing names that are not there changes nothing |
| ServerConfig.WithoutNamesAll | src/internal/store/legacy/shared.ts:682 | removing every name leaves nothing |
| ServerConfig.WithoutNamesFirstAppearances | src/internal/store/legacy/shared.ts:663-682 | removing names and dropping repeats can be done in either order |
| ServerConfig.FirstAppearancesOfPrefix | src/internal/store/legacy/shared.ts:663 | dropping repeats of a prefix first changes nothing |
| ServerConfig.WithAppliedServerRolesToUserIdempotent | src/internal/store/legacy/shared.ts:687-688 | stripping and re-applying the custom roles to one user a second time changes nothing |
| ServerConfig.WithAppliedServerRolesIdempotent | src/internal/store/legacy/shared.ts:687-688 | re-applying the same settings neither duplicates nor drops a role name and keeps the colours |
| ServerConfig.WithAppliedServerRolesSpec | src/internal/store/legacy/shared.ts:648-688 | each user keeps their id, name and status; their roles are their non-custom names plus the granted custom names, each once; and they have a role colour exactly when some role is granted |
| SettingsModal.LeadingDigits | src/components/ServerSettingsModal.tsx:92 | the digit run `Number.parseInt` reads: all digits, a prefix of the text, and followed by a non-digit or the end |
| SettingsModal.ParseIntegerSpec | src/components/ServerSettingsModal.tsx:91-95 | a non-numeric field gives the fallback, unclamped; a numeric one gives a value inside the range, the number itself when it already is |
| SettingsModal.DigitsOfNat | src/components/ServerSettingsModal.tsx:92 | the digits of a written number read back as that number |
| SettingsModal.LeadingDigitsOf | src/components/ServerSettingsModal.tsx:92 | digit scanning stops exactly at the end of a digit run |
| SettingsModal.ParseIntOfDigits | src/components/ServerSettingsModal.tsx:92 | digits followed by a non-digit parse as their value |
| SettingsModal.ParseIntOfNegated | src/components/ServerSettingsModal.tsx:92 | a minus sign, digits and a non-digit parse as the negated value |
| SettingsModal.ParseIntOfRendered | src/components/ServerSettingsModal.tsx:89-95 | a written integer followed by text that does not start with a digit parses back to that integer, so an untouched field keeps its value |
| SettingsModal.CreateRoleIdSpec | src/components/ServerSettingsModal.tsx:97-102 | a role id is never empty; it is the slug of the name when the name has a letter or digit, else `role-` and a random suffix |
| SettingsModal.RoleIds | src/components/ServerSettingsModal.tsx:631 | the ids of the roles, in order |
| SettingsModal.NewRoleSpec | src/components/ServerSettingsModal.tsx:635-650 | the new role has a `#rrggbb` colour (the given one exactly when it is valid), a level in 0..100 when it was typed or the default is in range, and no permissions |
| SettingsModal.AppendKeepsDistinctIds | src/components/ServerSettingsModal.tsx:631-650 | appending a role whose id is not taken keeps role ids unique |
| SettingsModal.RolesWithout | src/components/ServerSettingsModal.tsx:666 | keeps exactly the roles with another id |
| SettingsModal.AssignmentsWithoutSpec | src/components/ServerSettingsModal.tsx:671-680 | after deleting a role no member holds it, members keep their other roles in order, and exactly the members left without roles are dropped |
| SettingsModal.ToggleRoleAssignmentSpec | src/components/ServerSettingsModal.tsx:683-696 | the toggle flips whether the member holds the role, keeps their other roles, removes the member when no role is left, and leaves every other member alone |
| SettingsModal.ToggleTwice | src/components/ServerSettingsModal.tsx:683-696 | granting a role and toggling it again restores the assignments |
| SettingsModal.SetRolePermissionEnabledSpec | src/components/ServerSettingsModal.tsx:698-718 | only roles with the id change, and in them only the one action: present, as `true`, exactly when enabled |
| SettingsModal.RoleEditor.constructor | src/components/ServerSettingsModal.tsx:367-387 | the editor starts from the settings' roles and assignments, with the first role selected and an empty name |
| SettingsModal.RoleEditor.CreateRole | src/components/ServerSettingsModal.tsx:625-653 | nothing for a blank name; otherwise one role is appended whose id is the least free of the slug, `-2`, `-3`, …, it is selected and the name field is cleared; ids stay unique |
| SettingsModal.RoleEditor.DeleteRole | src/components/ServerSettingsModal.tsx:665-681 | the role goes, no member keeps it, members without roles are dropped, and a deleted selection moves to the first remaining role |
| SettingsModal.RoleEditor.ToggleAssignment | src/components/ServerSettingsModal.tsx:683-696 | the assignments become the toggled ones; nothing else changes |
| SettingsModal.RoleEditor.SetPermissionEnabled | src/components/ServerSettingsModal.tsx:698-718 | the roles become those with the permission set or cleared; nothing else changes |
| SettingsModal.RolesWithoutKeepsDistinct | src/components/ServerSettingsModal.tsx:666 | removing roles keeps the remaining ids unique |
| SettingsModal.NextSettingsRanges | src/components/ServerSettingsModal.tsx:586-614 | the saved levels stay in 0..100, the invite expiry in 1..168 hours and the audit retention in 7..365 days, whatever was typed |
| SettingsModal.SplitUptimeSpec | src/components/ServerSettingsModal.tsx:256-259 | days, hours below 24 and minutes below 60 add up to the uptime, less than a minute short |
| SettingsModal.HourRemainder | src/components/ServerSettingsModal.tsx:259 | a number written as `q * 3600 + r` with `0 <= r < 3600` leaves remainder `r` |
| SettingsModal.FormatUptimeSpec | src/components/ServerSettingsModal.tsx:254-263 | `n/a` exactly for a negative uptime; otherwise the label ends in minutes, starts with the days when there is one, and is `0m` below a minute |
| MessagePresentation.LowerSlice | src/services/messagePresentationService.ts:20-22 | lower-casing keeps the length and commutes with slicing, so a lower-cased substring is a substring of the lower-cased text |
| MessagePresentation.ContainsLower | src/services/messagePresentationService.ts:22 | a body containing the needle still contains it after both are lower-cased |
| MessagePresentation.LiteralMentionCounts | src/services/messagePresentationService.ts:28-32 | a body containing `@name` literally mentions the user whose display name is `name` |
| MessagePresentation.NoMentionOfNobody | src/services/messagePresentationService.ts:30-31 | with an empty id and an empty name no message is a mention |
| MessagePresentation.DetectionIgnoresCase | src/services/messagePresentationService.ts:25-32 | mention and link detection give the same answer on a body and on its lower-cased form |
| MessagePresentation.HitIds | src/services/messagePresentationService.ts:55-58 | the ids of the messages passing the text test and the filter, in order: an id is in the result exactly when some message with that id is a hit; never longer than the input |
| MessagePresentation.HitIdsAppend | src/services/messagePresentationService.ts:55-58 | searching a concatenation gives the concatenation of the two searches |
| MessagePresentation.BuildSearchResultIdsSpec | src/services/messagePresentationService.ts:47-59 | a blank query with the `all` filter gives no ids; otherwise an id is returned exactly when some message with that id contains the trimmed, lower-cased query and passes the filter |
| MessagePresentation.BlankQueryFromMe | src/services/messagePresentationService.ts:19-58 | a blank query with `from_me` returns exactly the ids of the messages the current user wrote |
| MessagePresentation.UnreadAtMostTotal | src/services/messagePresentationService.ts:80-83 | a thread never has more unread replies than replies |
| MessagePresentation.ReadThreadHasNoUnread | src/services/messagePresentationService.ts:79-83 | when every reply is at or before the baseline the thread has no unread reply |
| MessagePresentation.ThreadSummariesSpec | src/services/messagePresentationService.ts:61-88 | every summary has unread at most total; every root message has a summary; every reply's root has a summary with at least one reply, even a root absent from the list |
| MessagePresentation.ReplyCountPositive | src/services/messagePresentationService.ts:74-80 | a root with a reply in the list counts at least one reply |
| MessagePresentation.RootIdsSnoc | src/services/messagePresentationService.ts:68-72 | appending a message adds its id to the roots exactly when it is not a thread reply |
| MessagePresentation.RepliedRootsSnoc | src/services/messagePresentationService.ts:74-77 | appending a message adds its root to the replied roots exactly when it is a thread reply |
| MessagePresentation.SummaryOfSnoc | src/services/messagePresentationService.ts:77-84 | appending a reply to root `k` adds one reply, and one unread reply when it is newer than the thread's baseline (last viewed time, else the room's last read time); other messages leave `k`'s summary as it was |
| MessagePresentation.NoRepliesCountZero | src/services/messagePresentationService.ts:66-72 | a root nobody replied to has zero replies and zero unread |
| MessagePresentation.EmptySummaries | src/services/messagePresentationService.ts:66-72 | the first pass maps exactly the root ids to `{0, 0}` |
| MessagePresentation.CountedKeepsSummaries | src/services/messagePresentationService.ts:76-85 | counting one more message keeps the loop invariant: the map holds the summaries of the messages seen so far |
| MessagePresentation.SummariesStart | src/services/messagePresentationService.ts:66-72 | the zeroed root map satisfies the loop invariant before any reply is counted |
| MessagePresentation.SummariesEnd | src/services/messagePresentationService.ts:74-87 | after every message is counted the map equals the specification `ThreadSummaries` |
| MessagePresentation.CountReply | src/services/messagePresentationService.ts:77-84 | one step of the second pass: the summary of the reply's root gains one reply, and one unread reply when newer than the baseline |
| MessagePresentation.BuildThreadSummaries | src/services/messagePresentationService.ts:61-88 | the two passes compute exactly `ThreadSummaries` |
| MessagePresentation.ThreadSummaryExample | src/services/messagePresentationService.ts:61-88 | a root read at 1700000060000 with one reply at 1700000080000 has one reply, one of them unread |
| LocalMetrics.AllMetricTypesComplete | src/services/localMetricsService.ts:24-29 | the list of metric types names every type |
| LocalMetrics.ParseMetricType | src/services/localMetricsService.ts:38-48 | a parsed type is exactly the string naming it |
| LocalMetrics.ParseMetricTypeSpec | src/services/localMetricsService.ts:38-48 | each type's own name parses to that type, and a value is refused exactly when it names no type |
| LocalMetrics.NormalizeEvent | src/services/localMetricsService.ts:50-64 | an event is produced exactly when the value is an object whose `type` names a metric type; its kind is that type and its id the `id` string, else a fresh id |
| LocalMetrics.NormalizeEventRoundTrip | src/services/localMetricsService.ts:50-64 | normalising the JSON form of a well-formed event gives that event back |
| LocalMetrics.NormalizedEvents | src/services/localMetricsService.ts:73-75 | dropping invalid entries never lengthens the list |
| LocalMetrics.LastN | src/services/localMetricsService.ts:73-86 | `slice(-n)`: the result has `min(len, n)` elements and is a suffix of the input |
| LocalMetrics.LastNMultiset | src/services/localMetricsService.ts:73-86 | the kept events all come from the input, and nothing is dropped when the input fits |
| LocalMetrics.LastNOfSorted | src/services/localMetricsService.ts:76-77 | a suffix of a timestamp-sorted list is sorted |
| LocalMetrics.SortedPair | src/services/localMetricsService.ts:76 | in a list sorted by timestamp an earlier element is not newer than a later one |
| LocalMetrics.LastNAreLatest | src/services/localMetricsService.ts:76-77 | every dropped event is at most as recent as every kept one |
| LocalMetrics.LoadLocalMetricEventsSpec | src/services/localMetricsService.ts:66-81 | the loaded list is sorted by timestamp, at most 5000 long, drawn from the valid stored events, all of them when they fit, and keeps the newest ones |
| LocalMetrics.TrackKeepsNewEvent | src/services/localMetricsService.ts:88-101 | after tracking, the store holds at most 5000 events, ends with the new event, and before it keeps the newest existing events |
| LocalMetrics.StartOfWeekUtcSpec | src/services/localMetricsService.ts:103-110 | the week start is a UTC midnight on a Monday, at most the timestamp and less than a week before it |
| LocalMetrics.WeeksAwayIsMonday | src/services/localMetricsService.ts:121-122 | whole weeks away from a Monday midnight is again a Monday midnight |
| LocalMetrics.CountWeek | src/services/localMetricsService.ts:125-131 | the loop's totals equal `WeekTotals`: per type, the number of events in `[weekStart, weekStart + 7 days)` |
| LocalMetrics.SummarizeWeeklyMetrics | src/services/localMetricsService.ts:112-140 | one summary per requested week (none for a negative count), oldest first, each with its week start and that week's totals |
| LocalMetrics.WeeksSpec | src/services/localMetricsService.ts:118-124 | the week starts are Monday midnights a week apart, the last week holds the reference time, and no event falls in two weeks |
| LocalMetrics.CountInWeekAppend | src/services/localMetricsService.ts:127-131 | counting over a concatenation adds the two counts |
| LocalMetrics.CountInWeekAtMost | src/services/localMetricsService.ts:127-131 | a week's count of one type never exceeds the number of events |
| LocalMetrics.CountInWeekCons | src/services/localMetricsService.ts:127-131 | counting a list is counting its first event plus counting the rest |
| LocalMetrics.WeeklySummaryExample | src/services/__tests__/localMetricsService.phase6.test.ts:8-26 | over the four weeks before 2026-02-10 10:00 UTC the first week starts 2026-01-19 and the message sends add up to 3 |
| LocalMetrics.ExampleSendCount | src/services/__tests__/localMetricsService.phase6.test.ts:8-15 | in the example list only the three send events can count as sends |
| Timeline.Emojis | src/matrix/timeline.ts:50-53 | the emoji list has one entry per reaction, in order |
| Timeline.AddSenderUsers | src/matrix/timeline.ts:15-17 | adding a sender under a key appends it to that key's users and leaves every other key's users unchanged |
| Timeline.AddSenderEmojis | src/matrix/timeline.ts:15-17 | a known key keeps the emoji order; a new key is appended at the end, as a `Map` keeps insertion order |
| Timeline.AddSenderKeepsGrouping | src/matrix/timeline.ts:14-18 | adding a sender keeps a bucket's keys distinct with non-empty user lists |
| Timeline.UsersOfAt | src/matrix/timeline.ts:49-53 | in a bucket with distinct keys the users of the `i`-th emoji are its user list |
| Timeline.EmojisListUsers | src/matrix/timeline.ts:49-53 | a key is listed exactly when some user reacted with it |
| Timeline.GroupedSpec | src/matrix/timeline.ts:10-19 | for every target event and key, the grouped users are exactly the senders of the keyed reactions to that event, in timeline order, and every bucket is well grouped |
| Timeline.GroupedUsers | src/matrix/timeline.ts:10-19 | the grouped users of a target and key are the senders of the matching reactions, in order |
| Timeline.GroupedWell | src/matrix/timeline.ts:14-18 | every bucket built from the timeline has distinct keys with non-empty user lists |
| Timeline.GroupedKeys | src/matrix/timeline.ts:10-53 | a key shows on a message exactly when at least one reaction with that key targets it |
| Timeline.UnkeyedReactionsIgnored | src/matrix/timeline.ts:13 | a reaction without a target id or a key is ignored |
| Timeline.GroupReactions | src/matrix/timeline.ts:8-19 | the loop builds exactly the grouping `Grouped` of the timeline |
| Timeline.MembershipBodySpec | src/matrix/timeline.ts:92-108 | a membership change gets a text exactly when its new membership is join, leave, invite, ban or knock |
| Timeline.MapEventSpec | src/matrix/timeline.ts:24-123 | each event yields at most one message, and one exactly when it is an unredacted message or a membership change with a template; redacted messages, reactions and other events yield nothing |
| Timeline.MappedReactions | src/matrix/timeline.ts:49-66 | an unredacted message keeps its id, is pinned exactly when its id is in the pinned set, and carries exactly the grouped reactions to it |
| Timeline.MembershipMessages | src/matrix/timeline.ts:83-119 | a membership change yields the text of its transition (joined from invite, joined the room, left the room, left, invited, was banned, requested to join) as a system message without reactions at the event's time |
| Timeline.MapEventsCount | src/matrix/timeline.ts:24-123 | the mapped list has one message per yielding event, never more than the timeline |
| Timeline.MapEventsToMessages | src/matrix/timeline.ts:6-124 | the two passes compute exactly `Mapped` of the room, one message per yielding event |
| Timeline.RedactionTargetSpec | src/matrix/timeline.ts:126-136 | the target is the top-level `redacts` when it is a non-blank string, else the content's `redacts` when it is, else empty; a non-empty target is never blank |
| Timeline.PagesLoadedSpec | src/matrix/timeline.ts:151-160 | the loop stops at the first page count where messages exist, the server has no more, or the budget is spent, and not before |
| Timeline.LoadRoomMessagesWithBackfill | src/matrix/timeline.ts:138-162 | without pagination the live timeline is mapped and `hasMore` is false; otherwise the messages are those after the pages loaded, and `hasMore` is the last answer of the server (true when no page was loaded) |
| Timeline.BackfillBudget | src/matrix/timeline.ts:138-162 | never more pages than `maxPages` are loaded, and none when the live timeline already has messages |
| TimelineMerge.ByIdDomain | src/internal/store/legacy/shared.ts:1462-1468 | the id map holds exactly the ids of the list |
| TimelineMerge.LastWithId | src/internal/store/legacy/shared.ts:1462-1468 | the message kept for an id is the last one in the list with that id |
| TimelineMerge.ByIdSpec | src/internal/store/legacy/shared.ts:1462-1468 | the id map holds exactly the list's ids, each mapped to a message with that id that no later message shares its id with |
| TimelineMerge.ByIdConcat | src/internal/store/legacy/shared.ts:1462-1468 | mapping a concatenation is the first map overridden by the second, so timeline copies win over existing ones |
| TimelineMerge.MessageBeforeOrder | src/internal/store/legacy/shared.ts:1469-1474 | the comparator (timestamp, then id) is a total preorder, as a stable sort needs |
| TimelineMerge.MergedValuesSpec | src/internal/store/legacy/shared.ts:1462-1469 | the merged values are exactly the winning copies, one per id |
| TimelineMerge.MergeIdsUnique | src/internal/store/legacy/shared.ts:1461-1475 | the merged list never holds two messages with the same id |
| TimelineMerge.ByIdHasEveryId | src/internal/store/legacy/shared.ts:1462-1468 | every message's id has an entry |
| TimelineMerge.MergeSameElements | src/internal/store/legacy/shared.ts:1469 | sorting keeps exactly the merged values |
| TimelineMerge.MergeKeepsTimelineCopies | src/internal/store/legacy/shared.ts:1465-1467 | for every id in the timeline its last timeline copy is in the result |
| TimelineMerge.MergeKeepsExistingCopies | src/internal/store/legacy/shared.ts:1462-1464 | an existing message whose id the timeline lacks survives as its last existing copy |
| TimelineMerge.MergeHoldsNothingElse | src/internal/store/legacy/shared.ts:1461-1475 | every merged message is the winning timeline copy of its id, or the winning existing copy of an id the timeline lacks |
| TimelineMerge.MergeSorted | src/internal/store/legacy/shared.ts:1469-1474 | the result is strictly ordered by timestamp, then by id |
| TimelineMerge.WithoutBlocked | src/internal/store/legacy/shared.ts:1458 | a message is kept exactly when its id is not a non-empty entry of the remove list |
| TimelineMerge.ConsPairwise | src/internal/store/legacy/shared.ts:1458 | a head related to everything after it extends a pairwise-ordered list |
| TimelineMerge.HeadRelatesAll | src/internal/store/legacy/shared.ts:1458 | the tail of a pairwise-ordered list is ordered and its head relates to every later element |
| TimelineMerge.WithoutBlockedKeepsPairs | src/internal/store/legacy/shared.ts:1458 | filtering keeps any pairwise order of the list |
| TimelineMerge.FilterMessagesByIdsSpec | src/internal/store/legacy/shared.ts:1454-1459 | the kept messages are exactly those not blocked by a non-empty id; a remove list of only empty ids returns the list itself |
| TimelineMerge.FilterMessagesByIdsKeepsOrder | src/internal/store/legacy/shared.ts:1454-1459 | filtering keeps the relative order of the messages |
| TimelineMerge.ResolveTimelineMessagesSpec | src/internal/store/legacy/shared.ts:1477-1487 | the result is strictly ordered and holds exactly the merged messages whose ids are not removed |
| PendingRedactions.QueuedSince | src/internal/store/legacy/shared.ts:421-424 | an intent is kept exactly when it was queued at or after the cutoff |
| PendingRedactions.FirstPerKeySpec | src/internal/store/legacy/shared.ts:426-431 | the first-per-key pass keeps only input intents, one per room and transaction key, and loses no key |
| PendingRedactions.FirstPerKeySorted | src/internal/store/legacy/shared.ts:425-432 | keeping the first intent per key preserves newest-first order |
| PendingRedactions.FirstPerKeyNewest | src/internal/store/legacy/shared.ts:425-431 | on a newest-first list the intent kept for a key is at least as recent as every intent with that key |
| PendingRedactions.NewestFirst | src/internal/store/legacy/shared.ts:425 | the sort is a permutation ordered by decreasing `queuedAt` |
| PendingRedactions.DedupeByKey | src/internal/store/legacy/shared.ts:420-433 | the loop over the sorted intents computes exactly the first intent per key |
| PendingRedactions.PrunePendingRedactionIntents | src/internal/store/legacy/shared.ts:420-433 | the method computes `Pruned`, never more than 200 intents |
| PendingRedactions.DedupedSpec | src/internal/store/legacy/shared.ts:421-431 | before the cap: only intents within the 24-hour window, newest first, distinct keys, and every key of the window kept |
| PendingRedactions.PrunedSpec | src/internal/store/legacy/shared.ts:420-433 | at most 200 intents, all from the input and within 24 hours of `now`, ordered newest first, with distinct keys |
| PendingRedactions.PrunedKeepsNewest | src/internal/store/legacy/shared.ts:425-431 | the intent kept for a key is the newest one within the window with that key |
| PendingRedactions.PrunedDropsOnlyWhenFull | src/internal/store/legacy/shared.ts:432 | a key within the window is dropped only when 200 intents are kept, all at least as recent as it |
| PendingRedactions.DedupedKeepsNewest | src/internal/store/legacy/shared.ts:425-431 | before the cap, the intent kept for a key is the newest one within the window with that key |
| SearchNavigation.JsRem | src/app/useSearchNavigation.ts:36-67 | JavaScript `%`: the remainder takes the sign of the dividend and is smaller than the divisor in magnitude |
| SearchNavigation.JsRemSmall | src/app/useSearchNavigation.ts:39 | a number strictly between `-n` and `n` is its own remainder |
| SearchNavigation.JsRemUpToTwice | src/app/useSearchNavigation.ts:63 | a number in `[0, 2n]` is brought back into `[0, n)` |
| SearchNavigation.NormalizedIndexSpec | src/app/useSearchNavigation.ts:38-41 | the normalised index is a valid position, the index itself when already valid, and counts back from the end for a negative index above `-n` |
| SearchNavigation.ActiveSearchResultId | src/app/useSearchNavigation.ts:36-42 | there is an active id exactly when there are results, and it is one of them |
| SearchNavigation.NextIndexSpec | src/app/useSearchNavigation.ts:62-63 | from a valid index "next" moves on and wraps from the last to the first, "prev" moves back and wraps from the first to the last |
| SearchNavigation.NextThenPrev | src/app/useSearchNavigation.ts:62-63 | "prev" undoes "next" and "next" undoes "prev" |
| SearchNavigation.SearchNavigator.constructor | src/app/useSearchNavigation.ts:22-23 | the hook starts at index 0 with no focused message |
| SearchNavigation.SearchNavigator.ResetIndex | src/app/useSearchNavigation.ts:44-46 | a query, filter or room change resets the index to 0 and leaves the focus |
| SearchNavigation.SearchNavigator.ClampIndex | src/app/useSearchNavigation.ts:48-52 | an index past the end of a non-empty result list goes back to 0; otherwise it stays; the focus is untouched |
| SearchNavigation.SearchNavigator.FollowActive | src/app/useSearchNavigation.ts:54-57 | a non-empty active id becomes the focused message; otherwise the focus stays |
| SearchNavigation.SearchNavigator.NavigateSearch | src/app/useSearchNavigation.ts:59-67 | without results nothing changes; otherwise the index takes the wrapped step and the focus moves to the result at the new index |
| MessageListView.AgeOfSpec | src/components/MessageList.tsx:86-92 | each label counts whole units of the clamped delay within its range: just now below a minute, 1 to 59 minutes, 1 to 23 hours, 1 to 6 days, and a date from a week on |
| MessageListView.FutureIsJustNow | src/components/MessageList.tsx:87-88 | a timestamp in the future reads as "just now" |
| MessageListView.ClampMenuPointSpec | src/components/MessageList.tsx:120-126 | the menu is never closer than 8 to the top-left, never past the viewport minus its size when that bound is at least 8, and stays put when it already fits |
| MessageListView.FirstNewerThan | src/components/MessageList.tsx:181 | `findIndex`: the first message newer than the read marker, or -1 exactly when none is |
| MessageListView.UnreadSeparatorIndexSpec | src/components/MessageList.tsx:179-186 | no separator exactly when there is nothing unread or no message; otherwise it is on the first message newer than the read marker, or `max(len - unreadCount, 0)` when none is |
| MessageListView.PresentationRows | src/components/MessageList.tsx:188-207 | one row per message |
| MessageListView.PresentationRowsSpec | src/components/MessageList.tsx:190-204 | rows keep the messages in order; the first row starts a day and is never grouped; a grouped row has the previous author, the same day and a gap under the window; a day separator shows exactly on a day change; only the row at the unread index shows the unread separator |
| FeatureFlags.ParseBooleanFlagSpec | src/config/featureFlags.ts:1-14 | an unset variable gives the default; a trimmed, lower-cased true or false word gives its value; any other value gives the default; no word is in both lists |
| FeatureFlags.ParseBooleanFlagIgnoresPadding | src/config/featureFlags.ts:6 | whitespace around the value does not change the result |
| FeatureFlags.ParseBooleanFlagIgnoresCase | src/config/featureFlags.ts:6 | capital letters do not change the result |
| AppUpdate.LowerIsR | src/services/appUpdateService.ts:26 | the key lower-cases to `r` exactly for `r` and `R` |
| AppUpdate.RefreshShortcutSpec | src/services/appUpdateService.ts:24-27 | the shortcut is Meta or Ctrl with `r` in either case, and neither Shift nor Alt |
| AppUpdate.RefreshSpec | src/services/appUpdateService.ts:46-73 | the refresh reports "updated" exactly under Tauri with an update whose install and relaunch both finished, without reloading; every other path reloads once; without `notify` nothing is reported; a failure notice comes last |
| AppUpdate.Refresh | src/services/appUpdateService.ts:46-73 | the effects performed (result, reload count, notices) are those of `RefreshWithDesktopUpdate`; "updated" exactly when install and relaunch finished; one reload exactly when "reloaded" |
| Sorting.SortByKey | src/internal/store/legacy/shared.ts:1210 | numeric-key sorting returns a permutation of its input ordered by non-decreasing key |
| Sorting.SortByKeyStable | src/internal/store/legacy/shared.ts:1210 | the sort is stable, as `Array.prototype.sort` is: the elements with any one key keep their input order |
| Sorting.SortBy | src/internal/store/legacy/shared.ts:1377-1386 | sorting by a comparator that is a preorder returns a permutation of its input in which no element is before an earlier one |
| Sorting.SortByStable | src/internal/store/legacy/shared.ts:1377-1386 | the comparator sort is stable: the elements tied with any one value keep their input order |

## Left out

- Http.Request: room ids and job ids appear in `Http.Path` unencoded. The real paths differ: Rust's `urlencoding::encode` (src-tauri/src/lib.rs:84, 165) turns the leading `!` of a Matrix room id into `%21`, while `encodeURIComponent` (shared.ts:913-914, 1009) sends `!` as is. Routes are compared by endpoint, not by their encoded text.
- Http.Request: the initiating request body (`block`, `purge`, `force_purge`, `requester_user_id`; src-tauri/src/lib.rs:167-172, shared.ts:1010-1015) and the `Authorization`/`Content-Type` headers are not modelled; a request is its verb, base URL, room and endpoint.
- Http.Net: the reqwest client, `fetch`, `Instant`/`Date.now` and `sleep`/`delay` are a script of replies and latencies; the Tauri `invoke` fallback at the top of `requestSynapseHardDelete` (shared.ts:994-1007) is a foreign call and is not modelled.
- SynapseNative.PollDeleteStatus: the contract states the exact clock and that a time-out comes only after 90 s, but not that every request was sent before the deadline (the loop guard).
- SynapseNative.WaitForRoomRemoval: the contract states the exact clock and that a time-out comes only after 90 s, but not that every room check was sent before the deadline (the loop guard).
- SynapseFetch.PollSynapseDeleteStatus: the contract states the exact clock and that a time-out comes only after 90 s, but not that every request was sent before the deadline (the loop guard).
- SynapseFetch.WaitForSynapseRoomRemoval: the contract states the exact clock and that a time-out comes only after 90 s, but not that every room check was sent before the deadline (the loop guard).
- Text.Lower: lower-casing (`Text.LowerChar`, `Text.UpperChar`) is ASCII-only, where the source uses JavaScript's Unicode `toLowerCase`/`toUpperCase`. It is exact for the `"complete"`/`"failed"` tests and the `r` shortcut. It differs on non-ASCII letters.
- Layout.NormalizeLayoutCategoriesSpec: the result's order (by the input `order`, a non-finite one replaced by the position, ties kept in first-appearance order) is built by the stable `Sorting.SortByKey` (`Sorting.SortByKeyStable`), but no lemma states it of the result itself; the contract gives ids, names and the renumbering.
- Layout.ToCategoryId: a name made of the Kelvin sign (U+212A) lower-cases to `k` in JavaScript (shared.ts:1189-1194) and so gets id `k`; the model's ASCII lower-casing leaves no slug character and gives `freshId`. `SettingsModal.CreateRoleIdSpec` and the case-insensitive search of `MessagePresentation.BuildSearchResultIdsSpec` share the ASCII-only folding.
- SettingsSlices.AvatarInitial: the initial of `éric` is `É` in the app (shared.ts:526) and `é` in the model. `slice(0, 1)` takes one UTF-16 code unit and `toUpperCase` may lengthen it (`ß` gives `SS`), while the model takes one scalar value and keeps it one character long.
- ApplyLayout.RoomBefore: room names are compared by `Text.CodeUnitLess`, lexicographic order on characters, where the source uses `localeCompare` (shared.ts:1380, 1385). Under a locale collation `"a"` sorts before `"B"`; here `"B"` sorts first, so two rooms named `a` and `B` with the same order come out swapped. A Dafny `char` is a Unicode scalar value, so even characters outside the Basic Multilingual Plane are not in UTF-16 code-unit order.
- TimelineMerge.MessageBefore: the tie-break on message ids (shared.ts:1473) uses `Text.CodeUnitLess` instead of `localeCompare`, with the same difference as `ApplyLayout.RoomBefore`.
- SettingsSlices.ProfileName: `slice(0, 32)` (settingsSliceState.ts:112) counts UTF-16 code units, `Text.Take` counts scalar values; a name of 32 emoji keeps 32 in the model and 16 in the app.
- SettingsSlices.About: the same for `slice(0, 190)` (settingsSliceState.ts:133).
- Json.Num: numbers are whole numbers (with `Infinity` for an overflowing literal and `NaN`); a finite fraction such as a power level of 50.5, which `parsePowerLevels` keeps (permissionService.ts:60-61), or a category order of 1.5 cannot be represented.
- ServerConfig.ClampedNumber: `NaN` is not a number to the model, so it takes the clamped fallback, where `clampNumber` (shared.ts:690-691) would store `NaN`; `JSON.parse` never produces `NaN`, so only a caller in memory can reach this case.
- LocalMetrics.NormalizeEvent: an infinite `timestamp` (`1e400` in stored JSON) passes `typeof === "number"` (localMetricsService.ts:58) and is kept by the source; the model's timestamps are integers, so it takes `now` instead.
- AdminSlices.AdminSlice.SetPermissionRule: each store action runs to completion before the next one starts. The source's async actions read `state` before an `await` and write in `set((current) => …)` (for example adminSliceState.ts:74-122). Updates lost when two actions interleave are not modelled. The same holds for `RoomsSlices.RoomsSlice.DeleteRoom` and the other actions that publish to the Matrix server first.
- RoomsSlices.RoomsSlice.ReorderRoom: publishes the corrected reorder (`LayoutActions.ReorderRoomLayout`), not the code as written (roomsSliceState.ts:1177-1190): within one category the source leaves `[a, b, c]` unchanged when `a` is dragged onto `c`, where the slice gives `[b, a, c]`; see Findings.
- RoomsSlices.ReorderRoomDraft: drops the source room from the destination order before the splice, so its steps build the corrected reorder rather than the as-written one of roomsSliceState.ts:1177-1190.
- RoomsSlices.ReorderRoomNext: the next layout is the corrected `ReorderRoomLayout`, not `ReorderRoomAsWritten`; the two differ only within one category.
- UiSlices.UiSlice.PushNotification: the optional `options.action` button of `createNotification` (shared.ts:379-389) is not modelled; it is passed only by the desktop update notice (useNotificationEffects.ts:56-59), which is not part of this model, and never by a modelled caller.
- RoomsSlices.CreateCategoryNext: one fresh id stands for every `uid("cat")` the suffix search of `createCategory` could draw (roomsSliceState.ts:839); the source draws a new one on each pass, which only changes which unused id is chosen when the name has no slug characters.
- AppUpdate.Refresh: the updater calls (`isTauri`, `check`, `downloadAndInstall`, `relaunch`) are oracles; `checkForDesktopUpdateAvailability` (appUpdateService.ts:29-44), which only copies the version, date and notes of `check()`'s answer, is not modelled.
- LocalMetrics.SummarizeWeeklyMetrics: week starts are epoch milliseconds; `weekStartIso` (the `toISOString` date text) and `createWeeklyMetricsMarkdownReport` (localMetricsService.ts:142-176, Markdown text with a floating-point dead-click rate) are not modelled. Reading and writing local storage is left out; only the sort and the 5000 cap are modelled.
- PendingRedactions.PrunePendingRedactionIntents: `normalizePendingRedactionIntent` (shared.ts:408) and the load and save of the queue touch local storage and are not modelled; `reconcilePendingRedactionsForRoom` is asynchronous and concurrent and is not modelled.
- MessageListView.AgeOfSpec: ages of a week or more are rendered by the locale's date format and are not modelled; `sameDay` is a parameter because calendar days depend on the time zone.
- MessageActions.SendMessage: attachments are counted, not modelled as files; only whether there are any matters to the action.
- Remote health diagnostics (SSH, process spawning and the embedded script of src-tauri/src/lib.rs:271-643, and serverHealthService.ts) are I/O and are not modelled.
- The matrix-js-sdk wiring (`client.ts`, `session.ts`, `rooms.ts`, `permissions.ts`) and the Matrix branches of the slices are not modelled; where a slice action first sends a state event, the send's success is a parameter.
- `canCurrentUserDeleteChannelsInSpace` depends on `canDeleteChannelsAndCategories`, which is not part of this model.
- Group calls (`callsSliceState.ts`, `CallDock.tsx`) are event-driven WebRTC code and are not modelled.
- Floating-point and locale formatting (`formatBytes`, `formatPercent`, font scales, the date labels of the message list) and the Markdown renderer (`src/utils/markdown.ts`, a layer over marked and DOMPurify) are not modelled.
- React components and hooks other than the helpers listed above, the older store `src/store/appStore.ts`, the store glue and the scripts are wiring over the same logic and are not modelled.

## Findings

| source | as written | input that shows it | evidently intended | confidence | as-written member | corrected member |
|---|---|---|---|---|---|---|
| src/internal/store/legacy/slices/roomsSliceState.ts:1177-1190 | `reorderRoom` removes the source room from the layout copy, but `setRoomOrderForCategory` (shared.ts:1429-1433) only rewrites the rooms it lists. Within one category, the order read at :1182 therefore still holds the dragged room at its old position; the splice adds a second copy, and the first-wins dedup at :1189 keeps the old one. | One category holding rooms `a`, `b`, `c` (room keys in that order, orders 0, 1, 2): dragging `a` onto `c` leaves `a, b, c` | `b, a, c`: the source room immediately in front of the target | not executed | LayoutActions.ReorderRoomWithinCategoryIsNoop | LayoutActions.ReorderRoomPlacesBefore |

`LayoutActions.ReorderRoomAsWritten` models the code as written, and `LayoutActions.ReorderRoomLayout` is the corrected action; the rooms slice uses the corrected one. Across two categories both agree (`LayoutActions.ReorderRoomAgreesAcrossCategories`).
