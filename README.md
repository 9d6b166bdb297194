# Social — a verified model of the post manager's core

Social is a small single-page application for composing posts. Each post
goes to a set of social platforms. The application keeps all of its state in
memory:

- the list of created posts, newest first;
- a registry of four platforms (Twitter/X, Facebook, Instagram, LinkedIn) that
  can be connected and disconnected;
- a compose form that validates, builds and hands over a post draft.

A dashboard shows counts and the five most recent posts. A history screen
filters posts by a search term and a status, and sorts them by creation time.

This project models that core in Dafny and proves its properties. The
modules follow the source files:

| module | models |
|---|---|
| `Wrappers` | optional values (`Option`) |
| `Types` | the `Post`, `Omit<Post, 'id' \| 'createdAt'>` and `SocialPlatform` records of `src/types/index.ts` |
| `Text` | the JavaScript string operations the core uses: `trim`, `toLowerCase`, `includes`, first-letter capitalisation, `Number.prototype.toString` |
| `Platforms` | `SOCIAL_PLATFORMS` and the keys of `PLATFORM_ICONS` (`src/constants/platforms.ts`) |
| `PostHistory` | the filter, the stable sort, the status colours and the platform badges of `src/components/PostHistory.tsx` |
| `Dashboard` | the aggregates of `src/components/Dashboard.tsx` |
| `ComposePost` | the form of `src/components/ComposePost.tsx`: a class `ComposeForm` with the form state, and pure functions for the toggle, image-removal and draft-building updaters |
| `App` | the post store of `src/App.tsx`: a class `PostStore` whose `CreatePost` prepends |
| `PlatformConnections` | the connection screen: a class `Connections` with the `platforms` registry and the `connecting` marker |

Dates are integer millisecond timestamps. The clock readings (`Date.now()`,
`new Date()`) become parameters. So does the value that
`new Date(scheduledDate)` produces. The `Array.prototype.sort` call is
modelled as a stable insertion sort using the source's comparator, because
ECMA-262 requires the sort to be stable. A comparator result `<= 0` keeps the
earlier element first.

Where the behaviour of the code differs from a natural reading of the
design, the model follows the code:

- the Platforms card shows the literal `4`, not the number of connected
  platforms;
- connecting or disconnecting an unknown id leaves the registry unchanged,
  and no error is raised;
- a scheduled submit with an empty date gives a draft with no `scheduledAt`;
- `handleSubmit` does not check the 280-character limit. Only the disabled
  submit button checks it in the code; the browser also caps typed input
  through the textarea's `maxLength`, and that cap is not modelled.

## Model

| member | source | states |
|---|---|---|
| Types.StatusName | src/types/index.ts:17 | each of the four statuses has its string literal, and none is the filter value "all" |
| Types.StatusNameInjective | src/types/index.ts:17 | distinct statuses have distinct names |
| Platforms.RegistryIds | src/constants/platforms.ts:4-37 | the registry has exactly four platforms, in the order twitter, facebook, instagram, linkedin |
| Platforms.RegistryIdsDistinct | src/constants/platforms.ts:4-37 | the platform ids are pairwise distinct |
| Platforms.RegistryInitialFlags | src/constants/platforms.ts:4-37 | every platform starts with `connected` false and `requiresAuth` true |
| Platforms.CapitalisedIds | src/constants/platforms.ts:4-37 | capitalising each id gives its icon name, e.g. "linkedin" gives "Linkedin" |
| Platforms.RegistryIcons | src/constants/platforms.ts:4-44 | every `icon` field is a key of `PLATFORM_ICONS`, and equals the capitalised id |
| Platforms.Ids | src/constants/platforms.ts:4-37 | the registry's ids, one per entry and in order |
| Text.TrimStartSpec | src/components/ComposePost.tsx:30-36 | the leading trim keeps a suffix that does not start with white space, and drops only white space |
| Text.TrimEndSpec | src/components/ComposePost.tsx:30-36 | the trailing trim keeps a prefix that does not end with white space, and drops only white space |
| Text.TrimSlice | src/components/ComposePost.tsx:36 | the trimmed content is a contiguous slice of the input with only white space on either side |
| Text.TrimEnds | src/components/ComposePost.tsx:36 | the trimmed content neither starts nor ends with white space |
| Text.TrimEmptyIff | src/components/ComposePost.tsx:30 | the trimmed content is empty exactly when the input is all white space |
| Text.TrimIdempotent | src/components/ComposePost.tsx:36 | trimming twice equals trimming once |
| Text.Trim | src/components/ComposePost.tsx:30-36 | `String.prototype.trim`, the maximal leading and trailing white-space runs removed; specified by `Text.TrimSlice`, `Text.TrimEnds`, `Text.TrimEmptyIff` and `Text.TrimIdempotent` |
| Text.ToLower | src/components/PostHistory.tsx:18 | lower-casing keeps the length and maps each character through the lower-case mapping |
| Text.ToLowerIdempotent | src/components/PostHistory.tsx:18 | lower-casing twice equals lower-casing once |
| Text.IncludesIff | src/components/PostHistory.tsx:18 | `s.includes(t)` holds exactly when `t` occurs at some index of `s` |
| Text.Includes | src/components/PostHistory.tsx:18 | `String.prototype.includes`; specified by `Text.IncludesIff` |
| Text.Capitalize | src/components/PostHistory.tsx:128 | only the first character is upper-cased, the length is kept, and "" maps to "" |
| Text.NatToString | src/App.tsx:24 | a clock value renders as a non-empty string of decimal digits |
| Text.ParseNatToString | src/App.tsx:24 | reading the decimal rendering back gives the clock value |
| Text.NatToStringInjective | src/App.tsx:24 | two clock values render to the same id exactly when they are equal |
| PostHistory.MatchesStatusIff | src/components/PostHistory.tsx:19 | a status filter naming a status keeps exactly the posts with that status |
| PostHistory.MatchesSearch | src/components/PostHistory.tsx:18 | the content contains the search term after lower-casing both; used by `PostHistory.QueryCorrect` |
| PostHistory.MatchesStatus | src/components/PostHistory.tsx:19 | the filter is "all" or names the post's status; specified by `PostHistory.MatchesStatusIff` |
| PostHistory.Matches | src/components/PostHistory.tsx:17-21 | the filter callback, both predicates together; specified by `PostHistory.FilterPostsSpec` |
| PostHistory.FilterPosts | src/components/PostHistory.tsx:16-21 | the filter never lengthens the list |
| PostHistory.FilterPostsSpec | src/components/PostHistory.tsx:16-21 | the filter keeps exactly the matching posts, each exactly as often as in the input |
| PostHistory.FilterAllMatching | src/components/PostHistory.tsx:16-21 | when every post matches, the filter returns the list unchanged |
| PostHistory.Insert | src/components/PostHistory.tsx:22-28 | inserting adds exactly one copy of the post |
| PostHistory.Compare | src/components/PostHistory.tsx:22-28 | the comparator, `b - a` on `createdAt` for newest and `a - b` for oldest; its orders are stated by `PostHistory.QueryCorrect` |
| PostHistory.SortPosts | src/components/PostHistory.tsx:22-28 | the sort permutes its input |
| PostHistory.InsertSorted | src/components/PostHistory.tsx:22-28 | inserting into an ordered list keeps it ordered by the comparator |
| PostHistory.InsertPrecedes | src/components/PostHistory.tsx:22-28 | a post that precedes the inserted post and the whole list also precedes the result |
| PostHistory.SortPostsSorted | src/components/PostHistory.tsx:22-28 | the sort's output is ordered by the comparator |
| PostHistory.CreatedAt | src/components/PostHistory.tsx:22-28 | selecting the posts with a given `createdAt` never lengthens the list |
| PostHistory.InsertStable | src/components/PostHistory.tsx:22-28 | inserting keeps the relative order of posts with equal `createdAt`, with the inserted post placed before its equals |
| PostHistory.SortPostsStable | src/components/PostHistory.tsx:22-28 | posts with equal `createdAt` keep their input relative order |
| PostHistory.SortPostsOfSorted | src/components/PostHistory.tsx:22-28 | sorting an already ordered list returns it unchanged |
| PostHistory.FilterCreatedAtCommute | src/components/PostHistory.tsx:16-21 | filtering commutes with selecting the posts of one timestamp |
| PostHistory.QueryCorrect | src/components/PostHistory.tsx:16-28 | every result matches the search term after lower-casing both sides, and the status filter unless that is "all"; the result is a permutation of exactly the matching posts; `createdAt` is non-increasing for newest-first and non-decreasing for oldest-first; equal timestamps keep their input order |
| PostHistory.Query | src/components/PostHistory.tsx:16-28 | `filteredPosts`, the filter then the stable sort; specified by `PostHistory.QueryCorrect` and `PostHistory.QueryIdempotent` |
| PostHistory.QueryIdempotent | src/components/PostHistory.tsx:16-28 | applying the same query to its own output returns the same sequence |
| PostHistory.QueryShowsAll | src/components/PostHistory.tsx:18-19 | an empty search term with filter "all" returns every post, only reordered |
| PostHistory.QueryNoMatch | src/components/PostHistory.tsx:16-21 | if no content contains the term, or the filter is neither "all" nor a status name, the result is empty |
| PostHistory.StatusColorDistinct | src/components/PostHistory.tsx:30-41 | draft falls to the default grey classes, and the four statuses get four distinct class strings |
| PostHistory.StatusColor | src/components/PostHistory.tsx:30-41 | `getStatusColor`; specified by `PostHistory.StatusColorDistinct` |
| PostHistory.PlatformBadge | src/components/PostHistory.tsx:127-139 | an icon is shown exactly for the four registry ids and the four icon names (e.g. "twitter" and "Twitter"); any other id is shown as text that is no icon key and has the id's length |
| PostHistory.RegistryIdsShowIcons | src/components/PostHistory.tsx:128-133 | every registry id is shown with its own icon |
| Dashboard.RecentPosts | src/components/Dashboard.tsx:10 | the recent posts are the first min(5, n) posts, in their original order |
| Dashboard.WithStatus | src/components/Dashboard.tsx:12-13 | the per-status filter never lengthens the list |
| Dashboard.WithStatusSpec | src/components/Dashboard.tsx:12-13 | the per-status filter keeps exactly the posts with that status, each as often as in the list |
| Dashboard.Statuses | src/components/Dashboard.tsx:12-13 | the statuses of the posts, in order |
| Dashboard.WithStatusCount | src/components/Dashboard.tsx:12-13 | the per-status count is the number of posts with that status |
| Dashboard.Summarize | src/components/Dashboard.tsx:11-39 | the total is the list length and the Platforms card is the constant 4 |
| Dashboard.SummarizeCounts | src/components/Dashboard.tsx:11-13 | the published and scheduled counts count exactly the posts with those statuses, and together they do not exceed the total |
| Dashboard.StatusCountsPartition | src/components/Dashboard.tsx:11-13 | the four per-status counts add up to the total |
| Dashboard.PlatformsStatIsRegistrySize | src/components/Dashboard.tsx:38-39 | the literal 4 equals the size of the initial registry |
| Dashboard.PlatformsStatIgnoresConnections | src/components/Dashboard.tsx:38-39 | the literal 4 equals the size of the connection screen's registry in every valid state, whatever is connected |
| Dashboard.EmptyDashboard | src/components/Dashboard.tsx:10-13 | an empty list gives zero counts and no recent posts |
| Dashboard.BadgeClassesAgree | src/components/Dashboard.tsx:120-128 | the dashboard's status badge uses the same classes as the history's `getStatusColor` |
| Dashboard.RecentBadgeClass | src/components/Dashboard.tsx:120-128 | the recent-post badge's chained conditional; specified by `Dashboard.BadgeClassesAgree` |
| ComposePost.Without | src/components/ComposePost.tsx:23 | removing an id never lengthens the list, and the id is absent afterwards |
| ComposePost.WithoutKeepsOthers | src/components/ComposePost.tsx:23 | removing an id keeps every other id, and removing an absent id changes nothing |
| ComposePost.WithoutAppend | src/components/ComposePost.tsx:23 | removing an id distributes over concatenation |
| ComposePost.TogglePlatform | src/components/ComposePost.tsx:20-26 | the toggle updater; specified by `ComposePost.TogglePlatformSpec` and `ComposePost.ToggleTwice` |
| ComposePost.TogglePlatformSpec | src/components/ComposePost.tsx:20-26 | toggling flips membership of that id, and leaves the other ids and their order unchanged |
| ComposePost.ToggleTwice | src/components/ComposePost.tsx:20-26 | toggling an absent id twice restores the original list |
| ComposePost.RemoveImage | src/components/ComposePost.tsx:72-74 | removing index i deletes exactly that image and keeps the others in order; an out-of-range index changes nothing |
| ComposePost.SubmitAccepts | src/components/ComposePost.tsx:30 | the submit guard; specified by `ComposePost.CanSubmitIff` and `ComposePost.GuardIgnoresLength` |
| ComposePost.CanSubmit | src/components/ComposePost.tsx:229 | the submit button's enable condition; specified by `ComposePost.CanSubmitIff` |
| ComposePost.CanSubmitIff | src/components/ComposePost.tsx:229 | the button is enabled exactly when the content is not all white space, a platform is selected, no submit is running and the length is at most 280; an enabled button implies the submit guard accepts |
| ComposePost.BuildDraft | src/components/ComposePost.tsx:35-42 | the draft literal; specified by `ComposePost.BuildDraftSpec` |
| ComposePost.GuardIgnoresLength | src/components/ComposePost.tsx:30 | content longer than 280 characters passes the submit guard, but the button is disabled for it |
| ComposePost.BuildDraftSpec | src/components/ComposePost.tsx:35-42 | the draft has the trimmed content and the selected platforms; its status is scheduled exactly when scheduling, published otherwise; `publishedAt` is set exactly when not scheduling, `scheduledAt` exactly when scheduling with a date, never both; images are absent when empty and otherwise kept unchanged |
| ComposePost.ScheduledWithoutDate | src/components/ComposePost.tsx:38-41 | scheduling with an empty date gives a scheduled draft with neither timestamp |
| ComposePost.ComposeForm.constructor | src/components/ComposePost.tsx:13-18 | the form starts empty and not submitting |
| ComposePost.ComposeForm.SetContent | src/components/ComposePost.tsx:95 | typing replaces the content and nothing else |
| ComposePost.ComposeForm.TogglePlatformSelection | src/components/ComposePost.tsx:20-26 | the selection becomes the toggled selection, and nothing else changes |
| ComposePost.ComposeForm.AddImages | src/components/ComposePost.tsx:62-70 | the new image references are appended, and nothing else changes |
| ComposePost.ComposeForm.RemoveImageAt | src/components/ComposePost.tsx:72-74 | the image list loses that index, and nothing else changes |
| ComposePost.ComposeForm.SetScheduled | src/components/ComposePost.tsx:195-196 | the checkbox sets the scheduling flag, and nothing else changes |
| ComposePost.ComposeForm.SetScheduledDate | src/components/ComposePost.tsx:209 | the date input sets the date, and nothing else changes |
| ComposePost.ComposeForm.Submit | src/components/ComposePost.tsx:28-60 | a draft is produced exactly when the guard accepts; a refused submit leaves the form unchanged; an accepted one returns the built draft, resets every field and ends with `isSubmitting` false |
| ComposePost.ResetFormDisabled | src/components/ComposePost.tsx:47-51 | the reset form cannot be submitted until content and a platform are entered again |
| App.NewPost | src/App.tsx:22-26 | the new post's id is the clock value rendered in decimal, and its `createdAt` is the creation time |
| App.NewPostCarriesDraft | src/App.tsx:22-26 | the new post carries every draft field unchanged, and its id reads back as the clock value |
| App.IdsMatchClocks | src/App.tsx:24 | two posts share an id exactly when they were created at the same clock value |
| App.IdsDistinct | src/App.tsx:24-27 | when the clock strictly increased between creates, all ids are pairwise distinct |
| App.SameTickSameId | src/App.tsx:24 | two creates within the same clock tick get the same id |
| App.PostStore.constructor | src/App.tsx:19 | the post list starts empty |
| App.PostStore.CreatePost | src/App.tsx:21-28 | the list grows by exactly one; the new post is at index 0 and the tail is the previous list; a clock later than every earlier create keeps the clock readings strictly decreasing along the list |
| App.SubmitAndCreate | src/components/ComposePost.tsx:30-58 | a refused submit leaves the form and the store alone; an accepted one prepends a post whose draft fields are the built draft, and leaves the form reset with `isSubmitting` false |
| App.FirstPublishedPost | src/components/Dashboard.tsx:11-39 | one published post on an empty store shows 1 total, 1 published, 0 scheduled and 4 platforms |
| App.HelloWorldPublished | src/components/ComposePost.tsx:35-42 | "  Hello world  " sent to Twitter becomes a published draft "Hello world" on twitter, published now, and the dashboard then shows 1, 1, 0, 4 |
| PlatformConnections.SetConnected | src/components/PlatformConnections.tsx:17-38 | the update keeps the length and changes `connected` on exactly the entries with that id |
| PlatformConnections.SetConnectedIds | src/components/PlatformConnections.tsx:18-37 | the update keeps the ids and their order |
| PlatformConnections.SetConnectedKeepsFields | src/components/PlatformConnections.tsx:18-37 | every field other than `connected` is unchanged |
| PlatformConnections.SetConnectedIdentityIff | src/components/PlatformConnections.tsx:18-37 | the registry stays identical exactly when every entry with that id already has that flag |
| PlatformConnections.SetConnectedUnknown | src/components/PlatformConnections.tsx:18-37 | an unknown id leaves the registry identical |
| PlatformConnections.SetConnectedOverride | src/components/PlatformConnections.tsx:17-38 | a second update of the same id overrides the first, so connect and disconnect are each idempotent |
| PlatformConnections.ConnectThenDisconnect | src/components/PlatformConnections.tsx:17-38 | disconnecting right after connecting a disconnected platform restores the registry |
| PlatformConnections.ConnectedAfterConnect | src/components/PlatformConnections.tsx:17-23 | after connecting an id the registry holds, an entry with that id is connected |
| PlatformConnections.RoundTripFromInitial | src/components/PlatformConnections.tsx:7-38 | connecting and then disconnecting any id from the initial registry gives the initial registry back |
| PlatformConnections.Connections.constructor | src/components/PlatformConnections.tsx:7-8 | the registry starts equal to `SOCIAL_PLATFORMS`, and `connecting` starts null |
| PlatformConnections.Connections.BeginConnect | src/components/PlatformConnections.tsx:11 | the marker is set to the id, and the registry is unchanged |
| PlatformConnections.Connections.IsConnecting | src/components/PlatformConnections.tsx:55 | `connecting === platform.id`, which shows the spinner and disables Connect; set by `BeginConnect`, cleared by `FinishConnect` |
| PlatformConnections.Connections.FinishConnect | src/components/PlatformConnections.tsx:17-27 | on success, the entries with that id are connected; success or not, the marker is null again; the registry keeps its ids |
| PlatformConnections.Connections.Connect | src/components/PlatformConnections.tsx:10-29 | a whole connect: the marker ends null, and the registry is connected at that id when the call succeeds |
| PlatformConnections.Connections.Disconnect | src/components/PlatformConnections.tsx:31-39 | the entries with that id are disconnected; the marker and the ids are unchanged |

## Left out

- Rendering is not modelled: JSX, styling other than the status classes, icons as components, routing and `navigate('/')`.
- The 2000 ms delay in `handleConnect` is not modelled. A connect is its start and its completion.
- Overlapping connects are not modelled. They are a concurrency concern: each overwrites the single `connecting` marker.
- PlatformConnections.Connections.FinishConnect: the `succeeded` flag is a generalisation. The awaited promise never rejects, so the source always takes the success path; the model allows either.
- `handleSubmit`'s catch path is not modelled, because nothing in its try block can throw. The model still clears `isSubmitting` at the end, as the `finally` block does.
- `URL.createObjectURL` is not modelled. Image references arrive as string parameters of `AddImages`.
- Date parsing is not modelled. `new Date(scheduledDate)` becomes the integer parameter `scheduledTime`, so an invalid date has no counterpart.
- Text.ToLower: only ASCII letters are mapped. The full Unicode case mapping and locale rules of `toLowerCase` are not modelled.
- Text.Capitalize: only ASCII letters are upper-cased, as above.
- String length is counted in Unicode scalar values, not UTF-16 code units. The 280 limit and `content.length` differ for characters outside the Basic Multilingual Plane.
- The "approaching limit" warning above 80% of 280 is display text and is left out.
- App.NewPost: the clock is a natural number. A negative `Date.now()`, which would render with a minus sign, is not modelled.
- The mock `User`, and the `ApiResponse` and `PlatformConnection` types, are unused by any logic and are left out. `console.error` is left out as well.
- Lookups in `PLATFORM_ICONS` are modelled as membership in its four keys. Inherited properties of `Object.prototype` are not modelled. `Capitalize` leaves some of their names unchanged, such as `__proto__` or `__defineGetter__`. For such an id the source's lookup (src/components/PostHistory.tsx:129-131) finds a truthy value and takes the icon branch, while the model shows a `TextBadge`.
- ComposePost.ComposeForm.SetContent: accepts text of any length. The browser's `maxLength` cap on typed input (src/components/ComposePost.tsx:99) is not modelled. So the over-280 state that `ComposePost.GuardIgnoresLength` exhibits is reachable in the source only past that cap.
