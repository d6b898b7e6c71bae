# my-youtube-vault, modelled in Dafny

my-youtube-vault is a browser application for bookmarking YouTube and Facebook
videos. A pasted URL is classified by a fixed list of regular expressions. The
video id is extracted from it, and a thumbnail and oEmbed metadata are derived
from the id. The video is then stored in a client-side collection with
categories, grouped and counted by category and platform. An administrator area
lists every user's links and an activity log. A profile page validates the
display name, and an edge function checks a username and password.

The model follows the application's own structure, one Dafny module per source
file:

- `UrlPatterns` writes the six regular expressions out as matchers with
  JavaScript's semantics:
  - the leftmost match wins;
  - alternatives are tried in order;
  - class runs are greedy;
  - `.*` backtracks, so it stops at the last `/videos/<digits>` on the line.
- `VideoUtils` and `YouTube` are the two URL libraries.
- `VideoContext` is the store.
  - It is a class whose fields are the three state variables and the two
    storage slots.
  - Its methods are the provider's operations and its persist effects.
- `VideoForm` is a class with the form's fields. Its methods are the metadata
  effect and the submit handler.
- `CategoryFilter`, `VideoGrid` and `PlatformFilter` are pure functions of the
  store's lists.
- `AdminLinkTable`, `ActivityLogTable` and `Profile` each pair pure functions
  with a class for the component's state.
- `AuthFunction` is the edge function's handler, as a pure function.
- `Text` and `Seqs` hold JavaScript's `trim`, `toLowerCase`, `includes`,
  `||`-defaulting, `filter` and `map`.

Remote calls, the clock and random ids are method parameters:

- the oEmbed `fetch`;
- the Supabase queries and updates;
- `crypto.randomUUID()` and `new Date()`.

Browser storage is modelled as one optional value per key, for two keys. A value that is
absent or empty (falsy) is `None`.

Two details of the code that the model keeps:

- The category filter, the grid and the platform filter match by equality
  (`categoryId ===`, `detectPlatform(...) ===`), not by substring. The model
  does the same.
- `PlatformFilter` reads `selectedPlatform` and `setSelectedPlatform` from the
  video context. The provider does not supply them, so the platform selection is
  a value of its own (`PlatformFilter.Click`) and not a field of the store.

## Model

| member | source | states |
|---|---|---|
| UrlPatterns.MatchLeftmost | src/lib/video-utils.ts:4-15 | `match` fails exactly when the pattern matches at no index. Otherwise it is the match at the least index that has one. |
| UrlPatterns.CaptureAtGreedy | src/lib/video-utils.ts:5-6 | A capture follows one of the alternatives. It is a non-empty run of the class that ends at the end of the string or before a character outside the class. |
| UrlPatterns.VideosFromNone | src/lib/video-utils.ts:11 | The backtracking `.*` of `facebook.com/.*/videos/(\d+)` fails exactly when no position within the line-terminator-free run holds `/videos/<digit>`. |
| UrlPatterns.VideosFromLast | src/lib/video-utils.ts:11 | When a position holds `/videos/<digit>` and no later position within the run does, the backtracking `.*` captures the digits after that LAST position. |
| UrlPatterns.FirstHitIsFirst | src/lib/video-utils.ts:30 | The search that tries one index after another finds nothing exactly when no index has a hit. No index before the one it finds has a hit. |
| UrlPatterns.MatchFromLeftmost | src/lib/video-utils.ts:30 | The search from an index fails exactly when no later index matches. Otherwise it returns the match at the first index that has one. |
| UrlPatterns.NoMatchWithoutFirstChar | src/lib/video-utils.ts:4-15 | A pattern whose literals all start with `c` matches nowhere in a string without `c`. |
| UrlPatterns.Match | src/lib/video-utils.ts:30-31 | A capture is non-empty and every character is in the pattern's class. |
| VideoUtils.AnyTestsIff | src/lib/video-utils.ts:18-23 | The `test` loop succeeds exactly when some pattern of the list matches. |
| VideoUtils.FirstCaptureIff | src/lib/video-utils.ts:29-38 | The `match` loop returns null exactly when no pattern matches. Otherwise it returns the capture of a matching pattern that no earlier pattern precedes. |
| VideoUtils.YouTubeTakesPriority | src/lib/video-utils.ts:17-25 | Whenever a YouTube pattern matches, the platform is YouTube, whatever the Facebook patterns say. |
| VideoUtils.DetectPlatformIff | src/lib/video-utils.ts:17-25 | The platform is YouTube iff a YouTube pattern matches. It is Facebook iff none does and a Facebook pattern does. It is unknown iff no pattern of either list matches. |
| VideoUtils.ExtractAgreesWithDetect | src/lib/video-utils.ts:17-41 | The id is null exactly when the platform is unknown. For a classified URL it is the first capture of that platform's list. |
| VideoUtils.ValidityGates | src/lib/video-utils.ts:47-54 | A valid YouTube URL is a valid video URL. A URL is valid exactly when an id can be extracted. |
| VideoUtils.YouTubeIdShape | src/lib/video-utils.ts:5-6 | For a YouTube URL the id is non-empty and contains no `&`, `?`, `#` or newline. |
| VideoUtils.FacebookIdShape | src/lib/video-utils.ts:11-14 | For a Facebook URL the id is non-empty and contains no `/` or `?`. It is all decimal digits unless `fb.watch/` is the first Facebook pattern that matches. |
| VideoUtils.ThumbnailTemplate | src/lib/video-utils.ts:43-45 | The thumbnail is the fixed prefix, the id and the fixed suffix, so the id can be read back. It is never the placeholder. |
| VideoUtils.GetThumbnailIff | src/lib/video-utils.ts:61-67 | `getThumbnail` differs from the placeholder iff the platform is YouTube and the id is a non-empty string. Then it is the YouTube thumbnail. It is never empty. |
| VideoUtils.WatchUrlPrefixHasNoMatch | src/lib/video-utils.ts:56-58 | No YouTube pattern matches the watch URL at an index before its `youtube.com` part. |
| VideoUtils.WatchUrlCapture | src/lib/video-utils.ts:5 | At the `youtube.com` part of the watch URL the first pattern captures the whole id, because the id's characters are all in the capture class. |
| VideoUtils.EmbedUrlRoundTrip | src/lib/video-utils.ts:56-58 | For a non-empty id of the capture class, the watch URL is classified YouTube and the id is extracted back unchanged. |
| VideoUtils.FetchVideoMetadataCases | src/lib/video-utils.ts:70-110 | The result is null for unknown URLs and for YouTube URLs whose reply is not ok or throws. Every Facebook URL gets the fixed record with the placeholder. An ok YouTube reply defaults each missing field to `''` and derives the thumbnail from the id. Any result has a thumbnail. |
| YouTube.ExtractVideoId | src/lib/youtube.ts:1-12 | The result is null iff neither pattern matches. Otherwise it is the capture of the first pattern that matches. |
| YouTube.ExtractedIdShape | src/lib/youtube.ts:3-4 | An extracted id is non-empty and free of `&`, `?`, `#` and newline. |
| YouTube.AgreesWithVideoUtils | src/lib/youtube.ts:1-20 | Any id this module extracts is the one the URL classifier extracts. On a YouTube URL the two agree. The two `isValidYouTubeUrl` gates are equivalent. |
| YouTube.EmbedUrlRoundTrip | src/lib/youtube.ts:22-24 | For a non-empty id without `&`, `?`, `#` or newline, the id extracted from its watch URL is the id, and the watch URL is a valid YouTube URL. |
| YouTube.ThumbnailTemplate | src/lib/youtube.ts:14-16 | The thumbnail is the fixed template around the id. Distinct ids give distinct thumbnails. It equals the URL classifier's thumbnail. |
| VideoContext.WithIdentityKeepsFields | src/context/VideoContext.tsx:48-53 | A stored video keeps every caller-supplied field and adds only `id` and `createdAt`. |
| VideoContext.WithoutVideoSpec | src/context/VideoContext.tsx:57-59 | Deleting a video keeps exactly the videos with a different id, with their order and repeats: the filter of a concatenation is the concatenation of the filters. When no video has the id, the list is unchanged. |
| VideoContext.RenamedSpec | src/context/VideoContext.tsx:70-72 | Length, ids and order are kept. Name and color change on the categories with the id, and the others are unchanged. |
| VideoContext.UncategorizedSpec | src/context/VideoContext.tsx:76 | Length and order are kept. Exactly the videos that referred to the category lose their `categoryId`, and nothing else changes. Afterwards no video refers to it. |
| VideoContext.WithoutCategorySpec | src/context/VideoContext.tsx:75 | Exactly the categories with another id are kept, so none with the id remains. |
| VideoContext.DeleteCategoryKeepsReferences | src/context/VideoContext.tsx:74-80 | If every category reference resolved before `deleteCategory`, every one still resolves after it. |
| VideoContext.RenameKeepsReferences | src/context/VideoContext.tsx:70-72 | Renaming keeps every category reference resolvable. |
| VideoContext.DeleteVideoKeepsReferences | src/context/VideoContext.tsx:57-59 | Deleting videos keeps every remaining reference resolvable. |
| VideoContext.LastCategoryComesBack | src/context/VideoContext.tsx:42-46 | As written, deleting the last category leaves the old list in storage, and the next mount reads it back. |
| VideoContext.CategoriesWriteRoundTrip | src/context/VideoContext.tsx:36-46 | With the videos-list rule instead of the rule as written, storage holds the current categories list once anything was stored, and a mount reads that list back. |
| VideoContext.VideoStore.constructor | src/context/VideoContext.tsx:16-18 | The first render has empty lists and no selection over the storage as found. |
| VideoContext.VideoStore.PersistVideos | src/context/VideoContext.tsx:36-40 | The videos list is written iff it is non-empty or a value is already stored. |
| VideoContext.VideoStore.PersistCategories | src/context/VideoContext.tsx:42-46 | As written: the categories list is written iff it is non-empty. An empty list leaves storage as it was. |
| VideoContext.VideoStore.Mount | src/context/VideoContext.tsx:20-46 | Mounting loads the stored videos and the stored categories, or seeds the three defaults `1`, `2`, `3`. Stored videos end as found, the stored categories are the loaded list, and both lists end in sync with storage. |
| VideoContext.VideoStore.AddVideo | src/context/VideoContext.tsx:48-55 | The new video with the fresh id and time goes at index 0, and the old videos follow in order. Storage sync is kept, and references stay resolvable when the new video's category exists. |
| VideoContext.VideoStore.DeleteVideo | src/context/VideoContext.tsx:57-59 | The videos become the filtered list. Nothing else changes, and sync and references are kept. |
| VideoContext.VideoStore.AddCategory | src/context/VideoContext.tsx:61-68 | The new category is appended and the others are unchanged. The non-empty list is written. Sync and references are kept. |
| VideoContext.VideoStore.UpdateCategory | src/context/VideoContext.tsx:70-72 | The categories become the renamed list, written by the rule as written. The videos and the selection are untouched, and sync and references are kept. |
| VideoContext.VideoStore.DeleteCategory | src/context/VideoContext.tsx:74-80 | The category is removed, and its videos lose their category. The selection is cleared iff it was that category. Both effects run by the rules as written, so deleting the last category leaves the old list in storage. No category with the id and no reference to it remain. References are kept, and so is sync, in which an empty categories list stands beside the last stored one. |
| VideoContext.VideoStore.SetSelectedCategory | src/context/VideoContext.tsx:18 | Only the selection changes. |
| VideoForm.TrimmedOrNull | src/components/VideoForm.tsx:79-80 | The result is null iff the text is whitespace only. Otherwise it is non-empty, has nothing left to trim, and is the trimmed text. |
| VideoForm.Entry | src/components/VideoForm.tsx:72-82 | The entry has the trimmed url. Its title is the trimmed title, or `Untitled Video` when that is blank, so it is never empty. Channel fields are trimmed, or null when blank. An empty category id is null. The thumbnail is kept when non-empty, and otherwise it is `getThumbnail` of the raw url, its platform and its id, so it is never empty. |
| VideoForm.SubmitCases | src/components/VideoForm.tsx:55-82 | A submit is rejected as empty iff the URL is all whitespace. It is rejected as invalid iff it is not blank and no pattern matches. It adds iff it is not blank and an id can be extracted. |
| VideoForm.EntryIsTrimmed | src/components/VideoForm.tsx:76-80 | Every text field of an added video is already trimmed, the default title included. |
| VideoForm.UntrimmedGate | src/components/VideoForm.tsx:63-76 | The validity gate sees the URL as typed: `youtu.be/` followed by a no-break space (U+00A0, which a URL input keeps) is accepted, and the URL stored is `youtu.be/`, which no pattern recognises. |
| VideoForm.Form.constructor | src/components/VideoForm.tsx:11-17 | Every field starts empty and no fetch is in progress. |
| VideoForm.Form.FetchMetadata | src/components/VideoForm.tsx:24-48 | An invalid URL only clears the thumbnail. Metadata overwrite title, channel and thumbnail. Without metadata only the thumbnail fallback is set. A valid URL always ends with a thumbnail and no fetch in progress. |
| VideoForm.Form.Submit | src/components/VideoForm.tsx:55-91 | On an empty or invalid URL neither the form nor the store changes. Otherwise the entry is put before the store's videos and all six fields are reset to `''`. |
| VideoForm.Form.Reset | src/components/VideoForm.tsx:84-89 | All six fields are emptied, and the fetch flag is kept. |
| CategoryFilter.CategoryCount | src/components/CategoryFilter.tsx:8-11 | "All" counts every video, and a category never counts more. |
| CategoryFilter.CategoryCountIsMultiplicity | src/components/CategoryFilter.tsx:10 | A category's count is the multiplicity of its id among the videos' category ids. |
| CategoryFilter.CountAfterDelete | src/components/CategoryFilter.tsx:8-11 | After a delete, the deleted category counts zero, and "All" counts as before. |
| CategoryFilter.Click | src/components/CategoryFilter.tsx:18-33 | "All" clears the selection. A category button clears it iff that category was selected, and otherwise selects that category. |
| CategoryFilter.ClickToggles | src/components/CategoryFilter.tsx:26-33 | A button shows as selected after a click iff it did not before. Two clicks restore its state. |
| VideoGrid.FilteredVideosSpec | src/components/VideoGrid.tsx:8-10 | A falsy selection shows every video in order. Otherwise exactly the videos with that `categoryId` are shown, and filtering commutes with concatenation, so order is kept. |
| VideoGrid.AgreesWithCount | src/components/VideoGrid.tsx:8-10 | For a non-empty selected id, the grid shows as many videos as the button counts. |
| VideoGrid.EmptyStateIff | src/components/VideoGrid.tsx:12-22 | The empty state shows iff there are no videos, or a category is selected and no video has it. |
| PlatformFilter.PlatformCount | src/components/PlatformFilter.tsx:10-13 | "All" counts every video, and a platform never counts more. |
| PlatformFilter.PlatformCountIsMultiplicity | src/components/PlatformFilter.tsx:12 | A platform's count is its multiplicity among the classifications of the videos' URLs. |
| PlatformFilter.PlatformCountsBounded | src/components/PlatformFilter.tsx:10-19 | The YouTube and Facebook counts sum to at most the total. |
| PlatformFilter.Click | src/components/PlatformFilter.tsx:25-32 | "All" gives no selection. A platform button clears the selection iff the platform was selected, and otherwise selects it. |
| PlatformFilter.ClickToggles | src/components/PlatformFilter.tsx:25-32 | A platform button is selected after a click iff it was not before. Two clicks restore it. |
| AdminLinkTable.FilteredLinksSpec | src/components/admin/AdminLinkTable.tsx:46-51 | An empty term keeps all links. A link is kept iff its lower-cased title, URL, e-mail or non-null name contains the lower-cased term. Filtering commutes with concatenation. |
| AdminLinkTable.AllSelectedIff | src/components/admin/AdminLinkTable.tsx:53-54 | `allSelected` iff some link is shown and the shown ids are a subset of the selection. Then `someSelected` holds too. |
| AdminLinkTable.SelectAllSpec | src/components/admin/AdminLinkTable.tsx:56-62 | A full selection is emptied. Otherwise the selection becomes exactly the shown ids, and hidden ones are dropped. Two clicks on a non-empty list alternate between all and none. |
| AdminLinkTable.ToggledSpec | src/components/admin/AdminLinkTable.tsx:64-72 | Only the membership of the id flips, and toggling twice restores the selection. |
| AdminLinkTable.ExportSpec | src/components/admin/AdminLinkTable.tsx:144-153 | Every selected link is exported, also one hidden by the search, with the owner fields renamed. Only selected links are exported. The export of a concatenation is the concatenation of the exports, so the list order and repeats are kept. |
| AdminLinkTable.LinkTable.constructor | src/components/admin/AdminLinkTable.tsx:39-44 | There is no search, no editing and no selection, and the dialog is closed. |
| AdminLinkTable.LinkTable.ToggleSelectAll | src/components/admin/AdminLinkTable.tsx:56-62 | The selection becomes `SelectAll` of the shown links, and nothing else changes. |
| AdminLinkTable.LinkTable.ToggleSelect | src/components/admin/AdminLinkTable.tsx:64-72 | The selection becomes `Toggled` of the old one, and nothing else changes. |
| AdminLinkTable.LinkTable.StartEditing | src/components/admin/AdminLinkTable.tsx:74-78 | The editing id is set, and the link's title and URL are copied into the buffers. |
| AdminLinkTable.LinkTable.CancelEditing | src/components/admin/AdminLinkTable.tsx:80-84 | The editing id and both buffers are cleared. |
| AdminLinkTable.LinkTable.SaveEdit | src/components/admin/AdminLinkTable.tsx:86-106 | The update carries the trimmed buffers and the time. On success editing ends and a refresh follows. On failure nothing changes. |
| AdminLinkTable.LinkTable.BulkDelete | src/components/admin/AdminLinkTable.tsx:125-142 | The delete targets the selected ids. On success the selection is emptied, the dialog closes and a refresh follows. |
| AdminLinkTable.LinkTable.ExportSelected | src/components/admin/AdminLinkTable.tsx:144-153 | Every selected link of the full list gets a record, whatever the search. Every record comes from a selected link. A split of the list splits the records in the same order. |
| ActivityLogTable.FindProfile | src/components/admin/ActivityLogTable.tsx:46 | The result is null iff no profile has the id. Otherwise it is the first profile with the id. |
| ActivityLogTable.JoinAllSpec | src/components/admin/ActivityLogTable.tsx:45-52 | The join keeps the number and order of the logs. It changes only the two user fields. The e-mail is that of the first matching profile when non-empty, else `Unknown`. |
| ActivityLogTable.JoinWithoutRows | src/components/admin/ActivityLogTable.tsx:45-52 | Null logs give no rows, whatever the profiles. Null profiles make every user `Unknown`. |
| ActivityLogTable.FilteredLogsSpec | src/components/admin/ActivityLogTable.tsx:62-67 | An empty term keeps all logs. Otherwise a log is kept iff action, non-null entity type, e-mail or name contains the lower-cased term. Kept logs keep their order. |
| ActivityLogTable.ActionBadgeVariantIff | src/components/admin/ActivityLogTable.tsx:99-111 | `delete` is destructive, `create` is default, `login` and `logout` are secondary, and every other action is outline, each in both directions. |
| ActivityLogTable.Prefix | src/components/admin/ActivityLogTable.tsx:117 | `slice(0, n)` is the prefix whose length is the smaller of `n` and the string's length. |
| ActivityLogTable.FormatMetadata | src/components/admin/ActivityLogTable.tsx:113-121 | The result is nothing iff the metadata are null. Otherwise it has at most two entries. |
| ActivityLogTable.FormatMetadataSpec | src/components/admin/ActivityLogTable.tsx:113-121 | The result is the first `min(2, n)` entries with their keys. A string is cut to its first 30 characters, and any other value shows as its JSON text. |
| ActivityLogTable.ReplaceFirstAbsent | src/components/admin/ActivityLogTable.tsx:170 | An action without `_` is shown unchanged. |
| ActivityLogTable.ReplaceFirstAt | src/components/admin/ActivityLogTable.tsx:170 | Exactly the first `_` becomes a space, and the rest is kept. |
| ActivityLogTable.ReplaceFirstSplit | src/components/admin/ActivityLogTable.tsx:170 | Text before the first `_` and text after it are kept, and only that `_` becomes a space. |
| ActivityLogTable.ProfileUpdateLabel | src/components/admin/ActivityLogTable.tsx:170 | `profile_update` shows as `profile update`. |
| ActivityLogTable.SecondUnderscoreKept | src/components/admin/ActivityLogTable.tsx:170 | `a_b_c` shows as `a b_c`, so a second `_` is kept. |
| ActivityLogTable.LogTable.constructor | src/components/admin/ActivityLogTable.tsx:21-23 | There are no rows, loading is on and there is no search. |
| ActivityLogTable.LogTable.FetchLogs | src/components/admin/ActivityLogTable.tsx:29-60 | A failed query leaves the rows as they were. Otherwise the rows become the join. Loading ends either way. |
| ActivityLogTable.LogTable.Shown | src/components/admin/ActivityLogTable.tsx:62-67 | For an empty term every row is shown. Otherwise a row is shown iff it is a fetched row that matches the current term. No more rows are shown than were fetched. |
| Profile.ValidateDisplayName | src/pages/Profile.tsx:15-17 | A name is accepted iff its trimmed length is 1 to 100, and then it is trimmed. A blank name is refused with `Display name is required`, and a longer one with `Display name is too long`. |
| Profile.ValidationIsStable | src/pages/Profile.tsx:15-17 | Validating the trimmed name, or the accepted name again, gives the same verdict. |
| Profile.ProfilePage.constructor | src/pages/Profile.tsx:21-22 | The field starts as the profile's display name or `''`, and nothing is being saved. |
| Profile.ProfilePage.Save | src/pages/Profile.tsx:24-57 | A refused name sends nothing and leaves `isSaving` as it was. Otherwise the update carries the trimmed name. The log row with `profile_update` carries it too, and is sent only after a successful update. `isSaving` is false at the end. |
| AuthFunction.Handle | supabase/functions/auth/index.ts:8-54 | Every response carries the CORS headers. |
| AuthFunction.PreflightIgnoresBody | supabase/functions/auth/index.ts:10-12 | OPTIONS gets 200 with no body and the CORS headers, whatever the body. |
| AuthFunction.MissingConfigRefuses | supabase/functions/auth/index.ts:17-28 | When either configured value is unset or empty, every posted pair gets 500 `Authentication not configured`. |
| AuthFunction.CredentialCheck | supabase/functions/auth/index.ts:30-45 | When both values are configured, the status is 200 iff both posted fields equal them. Then the body carries the token and the username; otherwise it is 401 `Invalid username or password`. |
| AuthFunction.ThrownBodyFails | supabase/functions/auth/index.ts:46-53 | An unreadable body gives 500 with the error's message, or `Unknown error` for a thrown non-Error. |
| AuthFunction.TokenOnlyForMatch | supabase/functions/auth/index.ts:30-38 | A token is only ever returned for the configured pair. |
| Text.TrimEmptyIff | src/components/VideoForm.tsx:58 | A string is blank after `trim` iff every character is JavaScript whitespace. |
| Text.TrimIdempotent | src/components/VideoForm.tsx:76-80 | Trimming twice is trimming once. |

The model functions themselves (`DetectPlatform`, `ExtractVideoId`, `GetThumbnail`, `FetchVideoMetadata`, `JoinAll`, `FilteredLinks`, `FilteredVideos` and the like) have no row of their own. Each is covered by the row of the lemma that states its meaning (`DetectPlatformIff`, `ExtractAgreesWithDetect`, `GetThumbnailIff`, `FetchVideoMetadataCases`, `JoinAllSpec`, `FilteredLinksSpec`, `FilteredVideosSpec`).

## Left out

- The oEmbed `fetch` and every Supabase call are not executed. Their outcome is a parameter: a reply, a failure flag, or fetched rows.
  - `deleteLink` (src/components/admin/AdminLinkTable.tsx:108-123) only issues a delete and a refresh. It changes no local state and is not modelled.
  - `AccountStats` is network-only and is not modelled.
- JSON text is not modelled.
  - Storage values are modelled as parsed lists or absence, so `JSON.parse` of malformed storage is left out.
  - `JSON.stringify` of a metadata value is an input string (`MetaValue.Other`).
  - The exported file and its download are left out.
- Characters are Dafny `char`s. UTF-16 surrogate pairs and their length in `slice` and zod's `max` are not modelled.
- Text.Lower: lower-cases ASCII letters only. Unicode case mapping is left out.
- The 500 ms debounce of the metadata effect and the ordering of concurrent asynchronous replies are left out. `FetchMetadata` runs once, after the delay, with one reply.
- Order of object keys: `formatMetadata` takes the entries in the order given. Reproducing `Object.entries` ordering (integer keys first) is left out.
- React rendering is left out: JSX, icons (`getActionIcon`, `getEntityIcon`), toasts, dialogs and styles.
- `console.log` output is left out.
- AuthFunction.Handle: the handler as a whole promises only the CORS headers. Each branch is in a lemma beside it.
  - A posted field that is not a string is modelled as absent (`None`). A non-string never equals a configured string, so the outcome is the same.
- The `Video` and `Category` types (src/types/video.ts) are not part of this model. Their fields are taken from how the store and the form use them.
- `useAuth`, the auth context and `refreshProfile` are not part of this model. Their effect is the failure flag passed to `Save`.

## Findings

| source | as written | input that shows it | evidently intended | confidence | as-written member | corrected member |
|---|---|---|---|---|---|---|
| src/context/VideoContext.tsx:42-46 | the categories list is written only when it is non-empty | a store with one stored category `c`: `deleteCategory(c.id)` empties the list, nothing is written, and the next mount reloads `[c]` | write when non-empty or when a value is already stored, as the videos effect at lines 36-40 does | not executed; medium | VideoContext.LastCategoryComesBack (over VideoContext.CategoriesWriteAsWritten) | VideoContext.CategoriesWriteRoundTrip (over VideoContext.CategoriesWrite) |

The store class `VideoContext.VideoStore` runs the categories rule as written, so its `DeleteCategory` shows the loss. The corrected rule is stated as the function `CategoriesWrite` and the lemma about it.
