# Mani Verdi site data layer, in Dafny

A model of the data logic under the Mani Verdi website (a small gardening, cleaning and
removals business) and its admin panel. The site is browser scripting over `localStorage`:

- the **admin panel** (admin/js/admin.js) edits services, gallery images and videos, admits
  and scales uploaded images, and seeds a built-in gallery of 73 photographs;
- the **publish API** (admin/js/api.js) takes a snapshot of the stored data, writes the
  published copy and the copy kept for the public site, keeps a list of generated download
  files upserted by file name, builds a theme stylesheet from the colour settings and tells
  the public site's window about the update;
- the **public site** (js/main.js) validates the contact form, filters the gallery by tab,
  checks for published updates at most every five minutes, applies content updates only for
  non-empty fields, and accepts update messages of one type only.

Local storage is the class `Storage.LocalStore`, one `Option` field per key (`None` is an
absent key); each operation that writes the store is a method whose `modifies` clause names
the fields it writes and whose `ensures` gives the new value of each. JSON encoding is taken
as the identity. Record ids are `NumId | StrId` and compared as datatypes, which is what
JavaScript's `===` does between a number and a string. Every clock reading, random suffix,
simulated server failure, confirmation dialog, browser decoding result and window
relationship is a parameter.

Modules: `Wrappers` (Option, Result), `Text` (the JavaScript string builtins used),
`Entities` (records), `Keyed` (findIndex/find/filter/push on id-keyed lists), `Storage`,
`Upload`, `GallerySeed`, `AdminPanel`, `PublicSite`, `PublishApi`.

Where the code and its descriptions differ, the model follows the code:

- the publish API reads absent services and videos as empty lists, while the admin panel
  shows four seed services and a seed video for the same absent keys
  (`PublishApi.SnapshotDefaultsDifferFromPanel`);
- the public site replaces the stored gallery with the seed list on every load, not only when
  it is empty (`PublicSite.InitGallery`), so images uploaded through the panel are lost from
  storage on each visit;
- the public site's update check reads `lastUpdated`, which the publish API never writes (it
  writes `lastModified`); only the admin panel's own publisher, which is not part of this
  model, writes `lastUpdated`. With the API's snapshots the notice is never asked for;
- `createGalleryData` exists twice (admin/js/admin.js:812-858 and js/main.js:531-582) and
  builds the same data in both; the public site's copy adds console logging and names its
  result. It is modelled once, in `GallerySeed`.

## Model

| member | source | states |
|---|---|---|
| Text.Trim | js/main.js:746 | the trimmed text is no longer than the input and neither starts nor ends with whitespace |
| Text.TrimIsMiddle | js/main.js:746 | the trimmed text is the part of the input left after a blank start and a blank end are cut off; with Trim's ensures this fixes the result |
| Text.Join | admin/js/admin.js:171 | the empty list joins to the empty string and a join starts with its first piece; JoinSplit and SplitJoin make it the inverse of `split` |
| Text.ParseInt | js/main.js:216 | a blank text reads as NaN, and a text made only of digits reads as its decimal value |
| Keyed.Upsert | admin/js/api.js:177-179 | the new element is last, every other-keyed element is kept, and nothing else is in the result |
| Upload.Admission | admin/js/admin.js:344-355 | a file is admitted exactly when it is at most 52428800 bytes and its type starts with `image/`; a file over the size is reported too large whatever its type |
| Upload.DeriveTitle | admin/js/admin.js:394 | the title is no longer than the file name and holds no `.`, `_` or `-` |
| Upload.ProcessImage | admin/js/admin.js:341-419 | a file is skipped exactly when it is not admitted and fails exactly when admitted but not decoded; a processed image carries the derived title, the two data URLs, the original size and both fitted sizes; a skipped file carries the notice that `RejectionNotice` builds, with the source's two texts, for the reason `Admission` gives |
| GallerySeed.SeedItem | admin/js/admin.js:843-857 | the record for position i has id i+1, the category i mod 4, a title of that category, alt text "category - title", a source under `images/gallery/` and no upload details |
| AdminPanel.ServicesOrSeed | admin/js/admin.js:222-226 | the stored services, or the four seed services when the key is absent |
| AdminPanel.GalleryOrEmpty | admin/js/admin.js:763-766 | the stored gallery, or the empty list when the key is absent |
| AdminPanel.VideosOrSeed | admin/js/admin.js:975-978 | the stored videos, or the one seed video when the key is absent |
| PublicSite.IsValidEmail | js/main.js:771-774 | an accepted address has at least five characters and holds an `@` and a `.`; EmailPatternMeansRule gives its exact language |
| PublicSite.ErrorNotice | js/main.js:763 | no errors give the empty notice, and the notice starts with the first error's message |
| PublicSite.IsShown | js/main.js:375 | the tab test itself; what it means for a gallery is stated by PublicSite.VisibleItems, PublicSite.AllTabShowsEverything and PublicSite.SeedItemOnOneCategoryTab |
| PublicSite.UpdateCheckDue | js/main.js:216 | with no recorded check, or an empty one, a check is due; a record that is not a number (NaN) never lets a check be due |
| PublicSite.UpdateSiteContent | js/main.js:59-116 | the content update keeps the number of links and contact paragraphs, and a text element the page lacks stays absent while one it has stays present |
| PublicSite.HandleWebsiteUpdate | js/main.js:29-56 | a message without data leaves the page as it was; with data, the page gets the data's content update |
| PublishApi.PublishedFiles | admin/js/api.js:78-95 | the last file written is `theme-settings.css` with the stylesheet when the settings yield one, and `services.json` with the published services otherwise |
| PublishApi.UpdateMessage | admin/js/api.js:116-119 | the message is one the public site treats as a website update, and it carries the published data |
| PublishApi.HasUnpublishedEdits | admin/js/api.js:30-37 | with no published snapshot there are edits; with one, there are none exactly when every stored collection (absent read as empty) equals the published one |
| Text.TrimStart | js/main.js:746 | the result is a suffix of the input, what was dropped is whitespace, and it does not start with whitespace |
| Text.TrimEnd | js/main.js:758 | the result is a prefix of the input, what was dropped is whitespace, and it does not end with whitespace |
| Text.TrimEmptyIffBlank | admin/js/admin.js:196 | `trim()` gives the empty (falsy) string exactly when the line is all whitespace |
| Text.IndexOf | admin/js/api.js:154 | the result is -1 or a position where the pattern occurs, and no occurrence is earlier |
| Text.ReplaceFirst | admin/js/api.js:154 | a string-pattern `replace` changes only the first occurrence and leaves a string without one unchanged |
| Text.MapChars | admin/js/admin.js:394 | a character-wise replacement keeps the length and maps every position |
| Text.Split | admin/js/admin.js:196 | `split` gives at least one piece and no piece holds the separator |
| Text.SplitFirstPiece | admin/js/admin.js:394 | `split(sep)[0]` is the prefix before the first separator |
| Text.JoinSplit | admin/js/admin.js:171 | joining the pieces of a split with the separator gives back the string |
| Text.SplitJoin | admin/js/admin.js:171-196 | splitting a join of separator-free pieces gives back the pieces |
| Text.NatToString | admin/js/admin.js:136 | a number's decimal text is non-empty, all digits, with no leading zero |
| Text.DigitPrefix | js/main.js:216 | the longest leading run of digits that `parseInt` reads |
| Text.ParseIntOfNatToString | js/main.js:216-217 | `parseInt` reads back the time that `toString` recorded |
| Keyed.FirstIndex | admin/js/admin.js:210 | `findIndex`: -1 when no element has the key, otherwise the first position with it |
| Keyed.FindIndex | admin/js/admin.js:210 | the left-to-right scan returns the first matching position, or -1 |
| Keyed.Find | admin/js/admin.js:113 | `find`: nothing exactly when no element has the key, otherwise the element at the first position with that key |
| Keyed.ReplaceByKey | admin/js/admin.js:210-213 | the length is kept, the first element with the key is replaced and every other position kept; an unknown key changes nothing |
| Keyed.Without | admin/js/admin.js:124 | `filter` on the id: no element with the id is left and every element with another id stays |
| Keyed.WithoutConcat | admin/js/admin.js:873 | filtering works part by part, so the remaining elements keep their relative order |
| Keyed.WithoutAbsent | admin/js/admin.js:873 | filtering out an id that does not occur changes nothing |
| Keyed.AppendThenRemove | admin/js/admin.js:208 | deleting the id of a freshly pushed element gives back the list before |
| Keyed.WithoutIdempotent | admin/js/admin.js:1025 | deleting the same id twice is deleting it once |
| Keyed.KeysWithout | admin/js/admin.js:489 | the ids after a delete are the ids before, less the deleted one |
| Keyed.UniqueWithout | admin/js/admin.js:124 | a delete keeps ids unique |
| Keyed.AppendFresh | admin/js/admin.js:208 | pushing an element with a fresh id keeps ids unique and adds exactly that id |
| Keyed.ReplaceKeepsKeys | admin/js/admin.js:212 | replacing by id keeps the set of ids and their uniqueness |
| Keyed.ReplaceTwice | admin/js/admin.js:927-929 | two edits of the same id: the second wins |
| Keyed.RemoveAfterReplace | admin/js/admin.js:210-213 | deleting an id after editing its element is the same as deleting it directly |
| Keyed.UpsertProperties | admin/js/api.js:177-179 | after filter-then-push exactly one element has the name, it is last, and the rest are the other-named elements in order |
| Keyed.KeyCount | admin/js/api.js:178 | the number of elements with a name, zero exactly when none has it |
| Keyed.KeyCountWithout | admin/js/api.js:178 | the filter takes its own name's count to zero and keeps every other name's count |
| Keyed.UpsertCounts | admin/js/api.js:177-179 | after an upsert the file's name occurs once and other names keep their counts |
| Upload.RoundedDiv | admin/js/admin.js:432 | `Math.round` of a quotient: the integer within half a unit of it, halves rounding up |
| Upload.RoundingError | admin/js/admin.js:436 | the rounded quotient times the divisor misses the dividend by at most half the divisor |
| Upload.FitWithin | admin/js/admin.js:422-440 | dimensions that fit are returned unchanged; otherwise the longer side (the width when strictly wider) becomes the bound, the other side is the rounded same-ratio scaling, and both sides are within the bound |
| Upload.FitIdempotent | admin/js/admin.js:422-440 | fitting a fitted image changes nothing |
| Upload.FitMonotone | admin/js/admin.js:422-440 | a smaller bound never gives a larger side |
| Upload.ThumbnailWithinDisplay | admin/js/admin.js:368-380 | the 300px thumbnail is never larger, on either side, than the 2048px display variant |
| Upload.DeriveTitleProperties | admin/js/admin.js:394 | the title is the file name up to its first dot with `_` and `-` turned into spaces |
| Upload.ProcessImageAdmission | admin/js/admin.js:341-419 | no image exactly when the size exceeds 52428800 or the type does not start with `image/`, size checked first; an admitted file gives an image unless reading or decoding fails, with a string id, category `giardinaggio` and the fitted sizes |
| GallerySeed.Titles | admin/js/admin.js:836-841 | every category has five titles |
| GallerySeed.CreateGalleryData | admin/js/admin.js:843-857 | one record per shipped file, 73 in all |
| GallerySeed.SeedItemAt | admin/js/admin.js:843-857 | item i has id i+1, category i mod 4, title i mod 5 of its category, source under `images/gallery/`, alt "category - title" |
| GallerySeed.SeedIdsUnique | admin/js/admin.js:849 | the seed ids are the numbers 1 to 73 in order, all distinct |
| GallerySeed.SeedCategoriesKnown | admin/js/admin.js:844-846 | every seed item has one of the four categories and one of its titles |
| GallerySeed.FirstSeedItem | js/main.js:564-578 | the first item is id 1, `giardinaggio`, "Progetto Giardino" |
| GallerySeed.SeedThumbnail | admin/js/admin.js:851 | the thumbnail of `stem.jpg` is `images/thumbnails/stem_thumb.jpg` |
| AdminPanel.SeedServicesWellFormed | admin/js/admin.js:222-254 | the four default services have distinct string ids |
| AdminPanel.ParseFeatures | admin/js/admin.js:196 | every parsed feature is a non-blank line without a newline |
| AdminPanel.KeepNonBlank | admin/js/admin.js:196 | `filter(f => f.trim())` keeps exactly the lines that are not blank |
| AdminPanel.KeepNonBlankAll | admin/js/admin.js:196 | a list of non-blank lines is kept whole |
| AdminPanel.KeepNonBlankConcat | admin/js/admin.js:196 | filtering a concatenation filters each part, so kept lines stay in order and keep their multiplicity |
| AdminPanel.KeepNonBlankSingle | admin/js/admin.js:196 | a single line is kept exactly when it is not blank; with KeepNonBlankConcat this fixes the result on every list |
| AdminPanel.ParseFeaturesEmpty | admin/js/admin.js:196 | an empty features box gives no features, not one empty feature |
| AdminPanel.ParseFeaturesOfJoin | admin/js/admin.js:171-196 | the newline-joined features shown in the form parse back to the same features |
| AdminPanel.ServiceFromForm | admin/js/admin.js:191-197 | the submitted service keeps the edited id and takes the form's fields, with parsed features |
| AdminPanel.EditFormRoundTrip | admin/js/admin.js:159-197 | submitting the edit form unchanged gives back the service being edited, for services whose texts the form's HTML shows as written |
| AdminPanel.NewServiceDraft | admin/js/admin.js:134-141 | the new-service draft has id `new-<time>`, blank fields, no features and the cog icon |
| AdminPanel.DraftIdsDistinct | admin/js/admin.js:136 | drafts opened at different times get different ids |
| AdminPanel.SaveService | admin/js/admin.js:204-220 | a new service is pushed onto the stored (or default) list; an edit replaces the first service with its id; an unknown id writes the list back unchanged |
| AdminPanel.EditTarget | admin/js/admin.js:111-119 | the service opened for editing is the first one with the given id, and nothing is opened when no service has it |
| AdminPanel.DeleteService | admin/js/admin.js:121-132 | after confirmation every service with the id is filtered out; without it nothing is written |
| AdminPanel.SaveNewThenDelete | admin/js/admin.js:124 | saving a new service with a fresh id then deleting it gives back the list before |
| AdminPanel.ButtonArgument | admin/js/admin.js:785-788 | a button hands its handler the id as a string: a string id unchanged, a numeric id as its decimal text |
| AdminPanel.ButtonOnNumberedItemsFindsNothing | admin/js/admin.js:873 | a quoted numeric id finds nothing and deletes nothing in a list of numbered items |
| AdminPanel.SeedGalleryButtonsMatchNothing | admin/js/admin.js:785-788 | the edit and delete buttons of the seed gallery find and delete nothing |
| AdminPanel.ButtonOnStringIdRemoves | admin/js/admin.js:1025 | a button of a string-keyed item finds it, and deleting through it leaves no element with that id |
| AdminPanel.ReseedIfEmpty | admin/js/admin.js:770-776 | an empty gallery is replaced by the 73 seed items; any other is kept |
| AdminPanel.LoadGalleryItems | admin/js/admin.js:768-809 | the shown gallery is the stored one, or the seed list, which is then stored; it is never empty |
| AdminPanel.AddImageToGallery | admin/js/admin.js:753-761 | the image is pushed onto the stored gallery |
| AdminPanel.ProcessedImages | admin/js/admin.js:323-329 | every image among the outcomes, and nothing else, is collected |
| AdminPanel.HandleImageUpload | admin/js/admin.js:312-338 | when one file's processing fails nothing is stored; otherwise every processed image is pushed in file order and their number reported, and skipped files add nothing |
| AdminPanel.DeleteGalleryItem | admin/js/admin.js:870-880 | after confirmation the item is filtered out and an emptied gallery is reseeded; without it nothing is written |
| AdminPanel.RemoveImagePreview | admin/js/admin.js:481-491 | the image is filtered out of the stored gallery at once, with no reseeding |
| AdminPanel.DeleteLastImageReseeds | admin/js/admin.js:870-880 | deleting the only image brings back the whole seed gallery |
| AdminPanel.EditedItem | admin/js/admin.js:922-924 | the edit form changes title, alt text and category and keeps every other field |
| AdminPanel.SubmitGalleryEdit | admin/js/admin.js:919-936 | the first stored item with the edited id is replaced; if there is none nothing is written |
| AdminPanel.NewVideo | admin/js/admin.js:947-953 | the submitted video has id `video-<time>` and the form's fields |
| AdminPanel.AddVideo | admin/js/admin.js:943-964 | the new video is pushed onto the stored (or default) list |
| AdminPanel.DeleteVideo | admin/js/admin.js:1022-1032 | after confirmation every video with the id is filtered out; without it nothing is written |
| AdminPanel.DeleteSeedVideo | admin/js/admin.js:975-986 | deleting the default video through its button leaves no video |
| PublicSite.EmailPatternMeansRule | js/main.js:771-774 | the pattern accepts exactly the strings with no whitespace, one `@` not at the start, and a `.` after it that is neither first nor last of the domain part |
| PublicSite.CollectErrors | js/main.js:744-760 | the errors pushed are one per failed check, in check order |
| PublicSite.ValidateForm | js/main.js:743-768 | the form is valid exactly when no error is collected, exactly when the name and message have at least 2 and 10 characters after trimming, the email is valid and a service is chosen; each error is present exactly when its check fails, and the errors are in check order |
| PublicSite.VisibleItems | js/main.js:372-388 | a tab shows exactly the items whose category is the tab's, or every item on the `all` tab |
| PublicSite.AllTabShowsEverything | js/main.js:375 | the `all` tab shows the whole gallery in order |
| PublicSite.SeedItemOnOneCategoryTab | js/main.js:375 | each seed item is shown on exactly one of the four category tabs |
| PublicSite.CheckForUpdates | js/main.js:207-233 | with a published snapshot and a due check, the time is recorded, otherwise the record is kept; the notice is asked for exactly when the check is due and the snapshot's `lastUpdated` is later than the page load |
| PublicSite.UpdateCheckGate | js/main.js:216-217 | right after a check, the next is due exactly when more than 300000 ms have passed |
| PublicSite.Present | js/main.js:65 | a content field counts exactly when it is present and non-empty; its effect on the page is stated by PublicSite.UpdateOverwritesOnlyFilled and PublicSite.UpdateContactInfoResults |
| PublicSite.Retarget | js/main.js:88-105 | every `tel:` or `mailto:` link gets the new value and keeps its prefix; other links and an absent value change nothing |
| PublicSite.ReplaceAddress | js/main.js:108-115 | each contact paragraph mentioning Novara becomes the address; others and an absent address change nothing |
| PublicSite.UpdateOverwritesOnlyFilled | js/main.js:59-85 | each of the hero title, subtitle and description and the about text is overwritten only when the page has the element and the field is present and non-empty, and then with the field's value; links that are neither `tel:` nor `mailto:` stay |
| PublicSite.UpdateContactInfoResults | js/main.js:88-115 | after both link passes every `tel:` link is `tel:<phone>` showing the phone and every `mailto:` link is `mailto:<email>` showing the email, each only when its field is filled; every paragraph mentioning Novara shows the address when it is filled; all else is kept |
| PublicSite.UpdateWithEmptyContent | js/main.js:59-116 | empty content leaves the page as it was |
| PublicSite.RetargetIdempotent | js/main.js:88-105 | retargeting twice with the same value is retargeting once |
| PublicSite.UpdateIdempotent | js/main.js:59-116 | applying the same content twice is applying it once |
| PublicSite.OnMessage | js/main.js:18-22 | anything but a `WEBSITE_UPDATE` message leaves the page unchanged; that message applies its data |
| PublicSite.LoadDynamicContent | js/main.js:236-246 | with no copy kept for the public site the page is unchanged |
| PublicSite.InitGallery | js/main.js:504-528 | the stored gallery is replaced by the 73 seed items whatever it held |
| PublishApi.CurrentData | admin/js/api.js:12-21 | each collection of the snapshot is the stored one, or empty when its key is absent, and the snapshot is stamped with the current time |
| PublishApi.SnapshotDefaultsDifferFromPanel | admin/js/api.js:203-216 | with nothing stored the snapshot has no services or videos, while the panel shows four and one |
| PublishApi.HasUnpublishedChanges | admin/js/api.js:30-37 | with no published snapshot there are always unpublished changes |
| PublishApi.UnpublishedChangesAfterClockMoves | admin/js/api.js:30-37 | once the clock has moved past a publish, the check reports changes though nothing was edited |
| PublishApi.EditsDetected | admin/js/api.js:30-37 | the corrected check reports a missing snapshot and a changed collection, and reports nothing the check as written does not |
| PublishApi.ThemeLine | admin/js/api.js:154 | each declaration is a `--` custom property |
| PublishApi.ThemeLines | admin/js/api.js:151-155 | at most one declaration per setting, each a `--` custom property |
| PublishApi.ThemeLinesConcat | admin/js/api.js:151-155 | declarations are produced setting by setting, in entry order |
| PublishApi.ThemeLinesSingle | admin/js/api.js:152-154 | one setting gives its declaration exactly when its key contains `Color` |
| PublishApi.NoColorNoLines | admin/js/api.js:152-157 | settings without a `Color` key give no declaration |
| PublishApi.ThemeLineOfColorKey | admin/js/api.js:154 | `primaryColor: v` becomes `--primary-color: v;`: the first `Color` turns into `-color` |
| PublishApi.ThemeCss | admin/js/api.js:148-161 | no stylesheet for absent settings or when no key has `Color`; otherwise the declarations joined inside a `:root` block |
| PublishApi.NoStylesheetWithoutColors | admin/js/api.js:149-160 | absent settings, or settings without a `Color` key, make no stylesheet |
| PublishApi.CreateDownloadableFile | admin/js/api.js:164-186 | earlier files of the name are dropped and the new one pushed: it is last and the only one of its name, and other files keep their order |
| PublishApi.UpsertTwice | admin/js/api.js:177-179 | generating the same file name twice keeps only the second file |
| PublishApi.ApplyThemeSettings | admin/js/api.js:148-161 | the stylesheet, when there is one, is stored as `theme-settings.css`; otherwise the files are untouched |
| PublishApi.UpsertMakesSole | admin/js/api.js:177-179 | a generated file is the only one of its name |
| PublishApi.UpsertKeepsSole | admin/js/api.js:178 | generating a file of another name keeps a file the only one of its name |
| PublishApi.SoleFileIsTheOnly | admin/js/api.js:178 | in a list where a file is the only one of its name, every entry with that name is that file |
| PublishApi.UpsertKeepsOthers | admin/js/api.js:178 | generating a file keeps every file of another name |
| PublishApi.PublishedFilesContents | admin/js/api.js:78-95 | after a publish `gallery.json` and `services.json` are each the only file of their name and hold the published collections, and other earlier files are kept |
| PublishApi.NotifyTarget | admin/js/api.js:113-131 | the opener while it is open, else a distinct parent, else no window |
| PublishApi.PostedMessageAccepted | admin/js/api.js:116-119 | the public site accepts the posted message and applies its content |
| PublishApi.UpdateIndexHtml | admin/js/api.js:98-110 | the copy for the public site is the data plus `generatedAt`, and the data is posted to the chosen window |
| PublishApi.GenerateUpdatedFiles | admin/js/api.js:78-95 | the copy for the public site gets `generatedAt`, the window is notified, and the files list becomes the gallery, services and stylesheet upserts of the old list |
| PublishApi.NothingUnpublishedAfterPublish | admin/js/api.js:30-50 | right after the snapshot is stored as published, neither the check as written nor the corrected one reports a change |
| PublishApi.PublishChanges | admin/js/api.js:40-61 | on server failure nothing is written and the connection error is raised; on success the snapshot is published, the public copy and download files are written, the right window is notified, and no unpublished change is left at that time |

## Left out

- The DOM: page rendering, modals, notifications, previews, animations, navigation and
  scrolling have no data logic; the page is modelled only as the texts and links the content
  update overwrites.
- Timers and delays (publish progress steps, button resets) are timing only.
- PublishApi.PublishChanges: the publish is atomic in the model. In the source the snapshot
  is taken (admin/js/api.js:41) before the two-second simulated server call is awaited
  (admin/js/api.js:45) and is written afterwards (admin/js/api.js:49); an edit made in the
  panel during that wait is not in the published copy, so after such an interleaving
  `HasUnpublishedEdits` would be true, which PublishApi.NothingUnpublishedAfterPublish does
  not cover.
- AdminPanel.EditFormRoundTrip: the round trip is stated only for texts without `"`, `&`,
  `<` or carriage returns and a description not starting with a newline; for others the
  form's HTML (admin/js/admin.js:159-171) ends attributes early, decodes entities, turns
  `\r` into `\n` or drops the leading newline, and the HTML parser is not modelled.
- Console logging (including that of the public site's `createGalleryData`) is output only.
- Entities.Lookup: a plain object has each key at most once and `JSON.parse` keeps the last
  of duplicate keys; `Fields` does not exclude duplicates, and `Lookup` reads the first
  one while `ThemeLines` emits a line for each. On objects read from storage, which the
  browser builds without duplicates, the two readings agree.
- `FileReader`, `Image` and canvas are browser APIs: their results are the `Upload.Decoding`
  parameter, and the two data URLs are taken as given.
- Upload.FitWithin: rounds the exact quotient; the source divides by a floating-point aspect
  ratio first, which can differ from the exact value in the last bit.
- `Promise.all` is modelled once every file has settled: a rejection means nothing is stored,
  which is what the source does; the order files settle in is not modelled.
- `Date.now`, `toISOString`, `new Date(...).getTime()`, the page-load time and the random id
  suffix are parameters. One publish reads one time for all of its stamps; the source reads
  the clock several times.
- `parseInt` is modelled for base ten only (no `0x` prefix). A record that does not parse
  gives NaN in the source, and then the update check is never due; the model says so.
- JSON parse and stringify are the identity; quota errors, malformed stored JSON and the
  `try`/`catch` blocks around them are not modelled.
- String lengths count Dafny characters, not UTF-16 code units.
- Blob URLs, file downloads and `postMessage` delivery are I/O; a posted message is returned
  as a value.
- `formatFileSize` and `animateCounter` are floating-point display code.
- The content and settings forms, `applySettings`, `applyWebsiteSettings`, gallery and
  services rendering on the public site, `updateMainWebsite` and `handleVideoUpload` are
  DOM or display code outside the data layer.
- The admin panel's second `initFileUploads` and its own `publishChanges`,
  `simulatePublishProcess`, `updateMainWebsiteData` and `updateMainHTML` are duplicate or
  competing definitions; which one runs depends on script load order, which the repository
  does not show.
- PublicSite.LoadDynamicContent: states only the absent case; with a copy present it is the
  message handler's content update, stated by PublicSite.OnMessage.
- PublicSite.HandleWebsiteUpdate: the gallery, services and theme redraws it triggers are
  display code; only the content update is modelled.
- Thumbnail paths for file names with a second `.jpg` inside them are not stated
  (GallerySeed.SeedThumbnail covers names of the form `stem.jpg` with no dot in the stem,
  which all shipped files are).

## Findings

| source | as written | input that shows it | evidently intended | confidence | as-written member | corrected member |
|---|---|---|---|---|---|---|
| admin/js/api.js:30-37 | `hasUnpublishedChanges` compares a fresh snapshot, including its `lastModified` stamp taken from the current clock, with the published one | publish at time T, edit nothing, ask again at any later time T' ≠ T: the stamps differ, so changes are reported | report changes only when the content, services, gallery, videos or settings differ from the published ones | not executed | PublishApi.UnpublishedChangesAfterClockMoves | PublishApi.EditsDetected |
