# painttwits-artist, modelled in Dafny

This project models the core of painttwits-artist, a self-hosted PHP gallery for one painter. Its heart is the
Deep Zoom Image (DZI) generator. `generateDZI` in generate_dzi.php cuts an uploaded painting into a pyramid of
256-pixel tiles with a one-pixel overlap, and then writes an XML descriptor that OpenSeadragon reads. An older copy of
the same generator sits inside the e-mail ingester. Around it the model covers the site's smaller rules:

- the JSON stores updated in place (exhibits, artwork metadata, deletions, pushed artworks, the profile rewrite,
  the export);
- the parsers and sanitisers (e-mail subject and body metadata, the config printer of the setup wizard,
  filename-to-title rules, slugs, update path filters, release-asset selection);
- the small state machines (token checks and rate windows in auth.php, the hourly intake counter, the theme cycle,
  the upload script, the account-deletion flow of the settings page).

Each PHP or JavaScript file of the core has its own module:

| module | file |
|---|---|
| `DziGeometry`, `DziGenerator`, `FileStore` | generate_dzi.php (and the tiling half of the e-mail ingester) |
| `EmailHandler` | email-handler/email_artwork_handler.php |
| `Exhibits` | update_exhibits.php |
| `MetaUpdate` | update_meta.php |
| `GalleryFiles`, `Gallery` | index.php (with the filename rules shared by art.php and zoom.php) |
| `ExhibitPage` | exhibit.php |
| `ArtPage` | art.php |
| `ZoomPage` | zoom.php |
| `DeleteArtwork` | delete.php |
| `PhpExport`, `Setup` | setup.php |
| `UpdateProfile` | update_profile.php |
| `ReceiveArtwork` | api/receive_artwork.php |
| `Auth` | auth.php |
| `ApplyUpdate`, `RollbackUpdate`, `CheckUpdate`, `Export` | api/apply_update.php, api/rollback_update.php, api/check_update.php, api/export.php |
| `Settings` | settings.php |
| `Theme`, `UploadScript` | assets/js/theme.js, assets/js/upload.js |
| `Common` | shared string helpers, `Option`, PHP's `empty`, `trim`, `basename`, `pathinfo` |

The filesystem is a class `FileStore.FileSystem`. It holds a map from structured paths to directories and files, and
a fixed set of paths where the environment refuses writes. A raster is only its width and height. Clocks, random
values, HTTP replies, HMAC, JSON decoding and `filter_var` are inputs or function parameters. Each endpoint is a
function from its request and the stored state to its reply and the new state. A class method then runs that
function step by step over the stored state.

## Model

| member | source | states |
|---|---|---|
| DziGeometry.CeilDivSpec | generate_dzi.php:94-95 | `(int)ceil(a / b)` is the least multiple count covering a: `q*b >= a` and `q*b < a + b` |
| DziGeometry.CeilDivUnique | generate_dzi.php:94-95 | any q with `a <= q*b < a + b` is that ceiling |
| DziGeometry.CeilDivOfNonZero | generate_dzi.php:94-95 | a positive size divided and rounded up stays positive |
| DziGeometry.CeilLog2Least | generate_dzi.php:78-79 | the top level `ceil(log2(max(W,H)))` is the least k with `2^k >= max(W,H)` |
| DziGeometry.TopLevelIsFullSize | generate_dzi.php:92-95 | the top level is exactly W x H |
| DziGeometry.LevelZeroIsOnePixel | generate_dzi.php:92-95 | level 0 is 1 x 1 |
| DziGeometry.LevelsArePositive | generate_dzi.php:97-100 | no level has a zero side, so the "too small" `continue` never fires |
| DziGeometry.NestedCeilDiv | generate_dzi.php:93-95 | dividing by 2a and rounding up equals rounding up twice (by a, then by 2) |
| DziGeometry.LevelHalves | generate_dzi.php:92-95 | each level is the next finer one halved and rounded up |
| DziGeometry.GridCountSpec | generate_dzi.php:108-109 | `ceil(d/256)` columns cover the level, and one column fewer would not |
| DziGeometry.CropIsClippedCore | generate_dzi.php:114-127 | the crop starts one pixel before the tile's core (at 0 for the first tile) and ends one pixel after it, clipped to the level |
| DziGeometry.CropInsideLevel | generate_dzi.php:118-127 | every crop is non-empty and lies inside the level |
| DziGeometry.CropContainsCore | generate_dzi.php:114-127 | every crop contains its tile's core `[256c, min(256(c+1), d))` |
| DziGeometry.CoresPartition | generate_dzi.php:108-127 | every pixel of a level lies in the core of exactly one tile, tile `i / 256` |
| DziGeometry.CropsAgree | email-handler/email_artwork_handler.php:603-617 | the e-mail ingester's crop formula gives the same rectangle as generate_dzi.php:114-127 for every tile of the grid |
| DziGeometry.EmailCropNeverEmpty | email-handler/email_artwork_handler.php:616-619 | the ingester's empty-tile guard never skips a tile |
| DziGeometry.TilesFromAtLeastLevels | generate_dzi.php:84-140 | every level adds at least one tile, so the count is at least the number of levels |
| DziGeometry.TileFileNameInjective | generate_dzi.php:136 | two grid positions never share a `<col>_<row>.jpg` name |
| DziGeometry.DescriptorRoundTrip | generate_dzi.php:147-151 | the descriptor reads back as TileSize 256, Overlap 1 and the source's width and height |
| DziGeometry.NotGenerated | email-handler/email_artwork_handler.php:631-634 | a descriptor in the ingester's attribute order is never taken for generate_dzi.php's layout |
| DziGeometry.EmailDescriptorRoundTrip | email-handler/email_artwork_handler.php:631-634 | the ingester's descriptor reads back to the same tile size, overlap, width and height |
| DziGenerator.Plan | generate_dzi.php:84-95 | the plan has `maxLevel + 1` levels, level l being `ceil(W/2^(max-l)) x ceil(H/2^(max-l))` |
| DziGenerator.TileStep | generate_dzi.php:130-140 | writing tile (col,row) succeeds exactly when its path is not refused, and it advances the finished part of the pyramid by that one tile, nothing outside the tile tree changing |
| DziGenerator.LevelDirStep | generate_dzi.php:85-90 | the level's `mkdir` succeeds exactly when its path is not refused or already taken (a leftover directory of a partial run fails it), and it starts that level |
| DziGenerator.PublishStep | generate_dzi.php:147-156 | once every level is done, a successful descriptor write publishes the whole pyramid |
| DziGenerator.CutTile | generate_dzi.php:114-127 | the tile cut from the level has a positive size equal to the crop of (col,row), computed either way the two generators do it |
| DziGenerator.RenderTile | generate_dzi.php:130-140 | cutting and saving one tile: saved exactly when its path is not refused, and then the progress moves one column |
| DziGenerator.RenderRow | generate_dzi.php:113-141 | a row is written exactly when none of its tiles is refused; it then holds every tile of that row and counts them |
| DziGenerator.RenderLevel | generate_dzi.php:107-142 | a level is written exactly when none of its tiles is refused, with `cols * rows` tiles counted |
| DziGenerator.MakeLevelDir | generate_dzi.php:85-86 | the level directory is made exactly when its path is not blocked |
| DziGenerator.LevelClear | generate_dzi.php:84-142 | a level whose directory and tiles are all writable has nothing blocked in it |
| DziGenerator.BuildLevel | generate_dzi.php:85-144 | one pass of the level loop succeeds exactly when nothing of that level is blocked; a refused level directory is reported with its level |
| DziGenerator.RenderLevels | generate_dzi.php:84-145 | the loop over levels maxLevel..0 finishes exactly when nothing in the pyramid is blocked; it then has written the whole pyramid and counted `sum(cols*rows)` tiles; a stop at a level directory names that level; nothing outside the tile tree changes |
| DziGenerator.GenerateDzi | generate_dzi.php:27-174 | a missing source fails and changes nothing; descriptor plus tile directory short-circuits as skipped and changes nothing; the dzi and `_files` directories are made first; a failed level directory, an Imagick failure or a failed descriptor write removes the whole `_files` tree; success happens exactly when every step can succeed and then reports the size, `maxLevel + 1` levels, the tile total, and leaves the full pyramid with the descriptor written last |
| DziGenerator.GetDziPath | generate_dzi.php:189-192 | the URL is `/uploads/dzi/` + the file's stem + `.dzi` |
| DziGenerator.ReadyDiffers | generate_dzi.php:179-184 | a descriptor without its tile directory counts as ready for `dziExists` but not for `generateDZI`'s skip test (generate_dzi.php:46) |
| DziGenerator.BuiltIsReady | generate_dzi.php:179-184 | after a build both readiness tests hold and the descriptor holds the generated text (the tiles directory is the one line 46 names) |
| FileStore.EnsureDir | generate_dzi.php:51-61 | after `if (!is_dir(p)) mkdir(p)` p is a directory |
| FileStore.Prune | generate_dzi.php:216-230 | the state after a recursive removal: exactly the paths not at or below the directory remain |
| FileStore.FileSystem.Mkdir | generate_dzi.php:52-86 | `mkdir` succeeds exactly when nothing is at the path, the parent is a directory and the path is not refused, and then adds one directory |
| FileStore.FileSystem.WriteFile | generate_dzi.php:137-153 | a write succeeds exactly when the path is writable, and then sets that one file |
| FileStore.FileSystem.Unlink | delete.php:59-66 | `file_exists && unlink` removes a file exactly when one is there |
| FileStore.FileSystem.RemoveTree | generate_dzi.php:216-230 | `rrmdir` reports false and changes nothing unless the path is a directory; otherwise it removes it and everything below it, every entry after everything below it |
| ZoomPage.Show | zoom.php:17-67 | a missing `f` redirects, an absent file is 404; the pyramid is built only when the descriptor is absent, and its success becomes the ready flag; the page's file system then is what `generateDZI` leaves; the tile source is `/uploads/dzi/<stem>.dzi` and the title is the derived one |
| EmailHandler.EnsureLevelDir | email-handler/email_artwork_handler.php:597-598 | `if (!is_dir) mkdir` of a level: a directory already there is reused; otherwise it is made exactly when its path is not refused |
| EmailHandler.EmailBuildLevel | email-handler/email_artwork_handler.php:592-629 | one pass of the ingester's level loop succeeds exactly when nothing of that level is blocked |
| EmailHandler.EmailRenderLevels | email-handler/email_artwork_handler.php:592-629 | the ingester's level loop finishes exactly when nothing in the pyramid is blocked, and then has written the whole pyramid |
| EmailHandler.MakeTileDirs | email-handler/email_artwork_handler.php:589-590 | the `_files` directory (with its parents) exists afterwards exactly when it can be created, and nothing outside `dzi` changes |
| EmailHandler.EmailGenerateDzi | email-handler/email_artwork_handler.php:578-639 | the ingester's copy completes exactly when its directories and every tile can be written; the descriptor is then written last when its path allows, else silently not; on failure the partial pyramid stays; nothing outside `dzi` changes |
| EmailHandler.EmailTileAndPublish | email-handler/email_artwork_handler.php:592-636 | once the tile directory exists, every tile is written exactly when none is refused; the descriptor follows when its path allows; nothing outside `dzi` changes |
| EmailHandler.TwinsAgree | email-handler/email_artwork_handler.php:578-639 | both generators leave the same paths with the same tiles over the same start; only the descriptor text differs, and both read back to the same size and tiling |
| EmailHandler.UploadTriggerImpliesEmail | email-handler/email_artwork_handler.php:535 | every image that `shouldGenerateDZI` (generate_dzi.php:210) would tile, the ingester tiles too |
| EmailHandler.TriggersDiffer | email-handler/email_artwork_handler.php:535 | a 2500 x 2500 image is tiled by the ingester (`> 2000`) but not by the `>= 3000` rule of generate_dzi.php:210 |
| EmailHandler.RouteNameLength | email-handler/email_artwork_handler.php:100 | a found `[name]` prefix has a non-empty name of letters, digits and hyphens followed by `]` |
| EmailHandler.SubjectRoute | email-handler/email_artwork_handler.php:98-104 | without a `[name]` prefix the subject is unchanged; with one the name is lower-cased route characters and the rest is trimmed |
| EmailHandler.RouteRoundTrip | email-handler/email_artwork_handler.php:98-104 | routing `"[" + name + "] " + text` gives back the name lower-cased and the text |
| EmailHandler.FirstMatch | email-handler/email_artwork_handler.php:117-123 | the index of the first row whose lower-cased subdomain equals the requested one, or the row count |
| EmailHandler.ChooseArtist | email-handler/email_artwork_handler.php:111-135 | no gallery for an unknown sender; else the first row matching the requested name, else the first row |
| EmailHandler.FirstMatchIs | email-handler/email_artwork_handler.php:117-123 | the match index is the unique one with no earlier match |
| EmailHandler.DefaultIsPrimary | email-handler/email_artwork_handler.php:107-131 | under the query's order (is_primary desc, id asc) the default row is a primary gallery, with the smallest id among them, whenever one exists |
| EmailHandler.MetadataSubject | email-handler/email_artwork_handler.php:136-137 | an unknown sender's subject, or one without a prefix, reaches the metadata parser as it was |
| EmailHandler.SavePending | email-handler/email_artwork_handler.php:147-189 | with fewer than 3 pending, the loop saves the first `3 - pending` storable attachments in order (allowed extension, a write that stores bytes); with 3 or more it saves none |
| EmailHandler.SaveSlots | email-handler/email_artwork_handler.php:158-188 | the foreach with its `break` on full slots saves exactly the picks of the storable flags |
| EmailHandler.PendingPicksLength | email-handler/email_artwork_handler.php:157-159 | no more attachments are saved than there are free slots |
| EmailHandler.PendingPicksBound | email-handler/email_artwork_handler.php:158-164 | saved indices are increasing and name storable attachments |
| EmailHandler.PendingPicksGreedy | email-handler/email_artwork_handler.php:158-164 | a storable attachment is passed over only when every slot is taken |
| EmailHandler.PendingNeverExceeds | email-handler/email_artwork_handler.php:148-159 | a sender with fewer than three pending artworks never ends with more than three |
| EmailHandler.ApplyLine | email-handler/email_artwork_handler.php:437-456 | one body line never makes the status anything but available, sold or other |
| EmailHandler.StatusStaysValid | email-handler/email_artwork_handler.php:449-453 | after any body lines the status is still available, sold or other |
| EmailHandler.ReadLine | email-handler/email_artwork_handler.php:438-456 | the if/elseif chain over one trimmed line computes ApplyLine |
| EmailHandler.ParseArtworkMetadata | email-handler/email_artwork_handler.php:425-478 | defaults, then every trimmed body line in order, then the subject step |
| EmailHandler.ParsedStatusValid | email-handler/email_artwork_handler.php:431-453 | whatever the mail says, the parsed status is available, sold or other |
| EmailHandler.TitleLine | email-handler/email_artwork_handler.php:439-440 | `title: v` sets the title to v and nothing else |
| EmailHandler.SizeLine | email-handler/email_artwork_handler.php:441-442 | `size: v` sets the dimensions to v |
| EmailHandler.DimensionsLine | email-handler/email_artwork_handler.php:443-444 | `dimensions: v` sets the dimensions to v |
| EmailHandler.DimensionLine | email-handler/email_artwork_handler.php:443-444 | `dimension: v` sets the dimensions to v as well |
| EmailHandler.StatusLine | email-handler/email_artwork_handler.php:449-453 | `status: v` sets the lower-cased status only when it is available, sold or other, and otherwise changes nothing |
| EmailHandler.ShorterKey | email-handler/email_artwork_handler.php:443 | `dimension:` is not read as `dimensions:` |
| EmailHandler.CloseQuote | email-handler/email_artwork_handler.php:461 | the lazy `(.+?)["']` ends at a quote |
| EmailHandler.CloseQuoteAt | email-handler/email_artwork_handler.php:461 | it ends at the first quote on the line |
| EmailHandler.ApplySubject | email-handler/email_artwork_handler.php:460-475 | the subject is used only while the title is `Untitled` and the subject is not empty; an unquoted subject becomes the title verbatim; price, status and description never change |
| EmailHandler.QuotedRest | email-handler/email_artwork_handler.php:462-471 | after a quoted title only the title, dimensions and medium change |
| EmailHandler.QuotedSubject | email-handler/email_artwork_handler.php:461-471 | `"t" medium` gives title t and that medium |
| EmailHandler.QuotedSubjectWithDims | email-handler/email_artwork_handler.php:461-471 | `"t" AxB medium` gives title t, dimensions `AxB` and the medium |
| EmailHandler.DimsOfDigits | email-handler/email_artwork_handler.php:465 | `^(\d+\s*x\s*\d+)` matches exactly `AxB` in front of a blank |
| EmailHandler.AttachmentTitle | email-handler/email_artwork_handler.php:547-550 | the first attachment, or an untitled one, keeps the title; later ones get ` (index+1)` appended |
| EmailHandler.AttachmentTitlesDistinct | email-handler/email_artwork_handler.php:547-550 | two attachments of one titled mail never share a title |
| Exhibits.DashRuns | update_exhibits.php:104 | `preg_replace('/[^a-z0-9]+/i', '-', …)` leaves only letters, digits and single dashes, never two dashes in a row |
| Exhibits.TrimDashes | update_exhibits.php:105 | `trim($slug, '-')` is a slice of its input that neither starts nor ends with a dash |
| Exhibits.ToLowerSlugChars | update_exhibits.php:104 | lower-casing keeps the slug alphabet `[a-z0-9-]` and keeps dashes single |
| Exhibits.BaseSlugShape | update_exhibits.php:104-106 | the base slug is non-empty, in `[a-z0-9-]`, without doubled dashes; from a title it has no dash at either end, else it is `exhibit-<time>` |
| Exhibits.SliceShape | update_exhibits.php:105 | trimming dashes keeps the slug alphabet and single dashes |
| Exhibits.FallbackShape | update_exhibits.php:106 | the `exhibit-<time>` fallback is a well-formed slug |
| Exhibits.CandidateInjective | update_exhibits.php:109-113 | `base`, `base-2`, `base-3`, … are pairwise different |
| Exhibits.Tried | update_exhibits.php:109-113 | the candidates tried before the n-th are all in the set |
| Exhibits.NotYetTried | update_exhibits.php:109-113 | the n-th candidate was not tried before |
| Exhibits.NotTriedBelow | update_exhibits.php:109-113 | a later candidate is not among any earlier prefix of tries, so the loop never repeats a slug |
| Exhibits.UniqueSlug | update_exhibits.php:109-113 | the loop returns the first candidate not in use: it is free, and every earlier one is taken |
| Exhibits.TrimJson | update_exhibits.php:153-155 | string values are trimmed, every other JSON value is kept |
| Exhibits.SlugArg | update_exhibits.php:143-144 | a slug passes exactly when `empty` lets it through: a string is its own key; a non-zero number names the key of its decimal text and `true` the key "1"; null, lists and objects give 404 |
| Exhibits.SlugNumberAsText | update_exhibits.php:143-144 | a non-zero number under `slug` finds the same exhibit as its decimal text, as PHP keeps the key "2024" as the integer 2024 |
| Exhibits.CsrfNeedsSessionToken | update_exhibits.php:78-83 | a passing CSRF check implies a non-empty session token equal to the posted `csrf_token`, or to the header when none is posted |
| Exhibits.NewExhibit | update_exhibits.php:115-129 | a created record has the given title, type `solo`, status defaulting to `draft`, duration to `temporary`, the creation stamp and no `updated_at` |
| Exhibits.CopyAllowed | update_exhibits.php:150-157 | exactly the allowed fields present in the input overwrite the record, strings trimmed; every other field is kept |
| Exhibits.ExhibitStore.Create | update_exhibits.php:95-140 | an empty title gives 400 and no change; otherwise a free slug `base[-n]` is chosen, the record stored under it when the write succeeds (500 and no change when it fails), and a published record synced |
| Exhibits.ExhibitStore.Update | update_exhibits.php:142-169 | a missing or unknown slug gives 404; otherwise only that exhibit changes, by the allowed fields and `updated_at`, and it is synced when published |
| Exhibits.ExhibitStore.Delete | update_exhibits.php:171-187 | a missing or unknown slug gives 404; otherwise exactly that exhibit is removed |
| Exhibits.ExhibitStore.Reorder | update_exhibits.php:189-212 | 404 for an unknown slug, 400 when `artworks` is not an array, otherwise only that exhibit's artworks and `updated_at` change; never synced |
| Exhibits.ExhibitStore.Handle | update_exhibits.php:55-217 | 401 unauthenticated, 405 not POST; a truthy non-string `csrf_token` with a session token is the TypeError of `hash_equals`, answered 500; any other failed CSRF check is 403; all without change. Past the checks the loose switch decides: `list` answers 200 and changes nothing; `create`, `update`, `delete` and `reorder` give the reply and store their own operations give; any other action answers 400 and changes nothing |
| Exhibits.ActionNamed | update_exhibits.php:89-91 | a string action runs exactly the case of that name, and the default when it names none of the five |
| Exhibits.ActionLoose | update_exhibits.php:89-91 | a non-string action: `true` loosely equals the first case and runs `list`; a number, `false`, null, a list or an object runs the default |
| Exhibits.UpdateWithoutFields | update_exhibits.php:150-158 | an update naming no allowed field changes only `updated_at` |
| Exhibits.UpdateIdempotent | update_exhibits.php:150-158 | updating twice with one input equals updating once, up to the time stamp |
| MetaUpdate.FileArg | update_meta.php:26-42 | a filename passes exactly when it is a non-empty string whose basename is non-empty and holds no `..`; the basename is what is stored |
| MetaUpdate.FieldKey | update_meta.php:45-50 | the field passes when it loosely equals one of the five field names; a string passes exactly when it is one of them, and is its own key |
| MetaUpdate.KeepTagChars | update_meta.php:60 | `preg_replace('/[^a-z0-9-]/', '', …)` keeps only `[a-z0-9-]` and never lengthens |
| MetaUpdate.KeepTagCharsAll | update_meta.php:60 | a string already in `[a-z0-9-]` is unchanged |
| MetaUpdate.CleanTag | update_meta.php:60 | a cleaned tag holds only `[a-z0-9-]` |
| MetaUpdate.CleanTagFixed | update_meta.php:60 | a tag already clean is its own cleaning |
| MetaUpdate.CleanEach | update_meta.php:59-61 | `array_map` cleans every tag in place |
| MetaUpdate.DropEmpty | update_meta.php:59 | `array_values(array_filter(…))` keeps, in order, only tags that are not `""` or `"0"` |
| MetaUpdate.DropEmptyKeeps | update_meta.php:59 | a list with no empty tag is kept whole |
| MetaUpdate.CleanTags | update_meta.php:58-61 | the pipeline yields only clean, non-empty tags, no more than it was given |
| MetaUpdate.CleanTagsKeeps | update_meta.php:58-61 | a clean list comes through unchanged |
| MetaUpdate.CleanTagsIdempotent | update_meta.php:58-61 | cleaning twice equals cleaning once |
| MetaUpdate.Strings | update_meta.php:59-60 | the items of a tag array read as strings |
| MetaUpdate.ToJsonStrings | update_meta.php:86 | the stored JSON array holds exactly the tag strings |
| MetaUpdate.TagsValue | update_meta.php:53-65 | whatever is sent, the stored tags are clean (a JSON object is stored as no tags; see Left out) |
| MetaUpdate.TagsArrayRoundTrip | update_meta.php:58-61 | sending a stored tag list back as an array stores the same list |
| MetaUpdate.TagsTextRoundTrip | update_meta.php:54-61 | sending a stored non-empty tag list back as `"a,b,c"` stores the same list |
| MetaUpdate.CleanHasNoComma | update_meta.php:60 | a clean tag holds no comma |
| MetaUpdate.SplitOfJoin | update_meta.php:56 | `explode(',', implode(',', tags))` gives the tags back when none holds a comma |
| MetaUpdate.LooseStatusAcceptsTrue | update_meta.php:68 | JSON `true` passes the loose `in_array` status check but is not a status name |
| MetaUpdate.StatusChecksAgree | update_meta.php:68 | apart from `true`, the loose and the strict status checks agree |
| MetaUpdate.Refusal | update_meta.php:10-72 | a request goes through only when signed in, POST, with a valid filename and field, and for `status` a value passing the status check |
| MetaUpdate.TrueStatusGoesThrough | update_meta.php:68 | as written, `{"field":"status","value":true}` with a valid filename is accepted and stores `true`; the strict check answers 400 |
| MetaUpdate.MetaStore.Update | update_meta.php:10-99 | a refused request changes nothing and answers its code; a failed write answers 500 and changes nothing; otherwise exactly one field of one entry is set, the entry created when missing |
| MetaUpdate.StoredStatusAsWritten | update_meta.php:68-86 | as written, a stored status is one of the three names or `true` |
| MetaUpdate.StoredStatusIsName | update_meta.php:68-86 | with the strict check, a stored status is always one of the three names |
| MetaUpdate.StoredTagsClean | update_meta.php:53-86 | stored tags are always an array of clean strings |
| GalleryFiles.LastDot | index.php:54 | in `p.e` with a dot-free extension the last dot sits right after `p` |
| GalleryFiles.ExtensionNoDot | index.php:54 | the extension `pathinfo` returns holds no dot |
| GalleryFiles.SizedNameParts | index.php:54 | in `<stem>_<size>.<ext>` the last dot follows the size suffix and the extension follows it |
| GalleryFiles.VariantsHiddenFromGallery | index.php:54 | every `_large`, `_medium`, `_small`, `_social` and `_map` variant of an original with an extension matches the gallery's filter |
| GalleryFiles.NavHidesVariants | art.php:107 | the artwork page's filter hides the large, medium, small and social variants of an original whose extension is letters |
| GalleryFiles.NavListsMapVariant | art.php:107 | the artwork page's filter does not hide the `_map` variant, which the gallery's filter at index.php:54 does hide |
| GalleryFiles.EndsWithLast | index.php:54 | a string ending in `t` ends in `t`'s last character |
| GalleryFiles.PrettyTitle | art.php:82-89 | a generated `art_<hex>` name (any case) gives `Untitled`; otherwise a title of the same length with no `_` or `-` and every word capitalised |
| GalleryFiles.UcWordsShape | art.php:88 | `ucwords` only upper-cases lower-case letters, and every one that starts a word |
| GalleryFiles.PlainTitle | index.php:67 | the gallery's fallback replaces a lower-case generated name by `Untitled` and keeps every other stem as is |
| GalleryFiles.TitleFallbacksDiffer | index.php:67 | the gallery keeps `ART_1f` while art.php:83-84 turns it into `Untitled` |
| Gallery.TagStrings | index.php:68 | the tags of an entry are the string items of its tag array, none for anything else |
| Gallery.StringItems | index.php:68 | a tag is listed exactly when it is a string item of the array |
| Gallery.Cards | index.php:50-88 | at most one card per listed file, each for a file that is not a resized variant, built by the card rule |
| Gallery.Originals | index.php:81 | the originals of the cards, in order |
| Gallery.CardsAreOriginals | index.php:51-56 | a file gets a card exactly when it is listed and is not a resized variant |
| Gallery.OriginalsStep | index.php:51-87 | one more file adds its name to the originals exactly when it is not a variant |
| Gallery.DisplayFileChoice | index.php:58-63 | the card shows the `_medium` variant when it is on disk and the original otherwise |
| Gallery.CardTitle | index.php:66-67 | the card title is the metadata title when set, else `Untitled` for a generated name, else the stem |
| Gallery.TagSetMembers | index.php:73-77 | a tag is collected exactly when some card carries it |
| Gallery.BuildGallery | index.php:49-92 | the loop builds the cards in listing order and a sorted, duplicate-free list of exactly the tags of the cards |
| Gallery.CollectTags | index.php:73-77 | the `in_array` loop appends each new tag once, keeps the earlier ones first and stays duplicate-free |
| Gallery.Shown | index.php:292-295 | the grid never shows more cards than there are |
| Gallery.ShownCards | index.php:292-295 | with no active tag every card is shown, otherwise exactly the cards carrying it |
| Gallery.FindShared | index.php:171-172 | the first card whose original is the shared name, or none when no card has it |
| Gallery.OpenGraph | index.php:150-188 | the shared artwork's social image when `?art=` names a listed original, else the first artwork's with an artwork count, else the defaults with an empty image |
| Gallery.Stamp | index.php:119-121 | a date counts only when set and parsed to a non-zero time stamp |
| Gallery.Partition | index.php:107-129 | the exhibit loop fills each of the four groups with exactly the exhibits the bucket rule files there |
| Gallery.FileExhibit | index.php:113-129 | one pass of the loop adds the exhibit to the group its bucket names, and to no other, and a hidden exhibit to none |
| Gallery.InBucketStep | index.php:113-129 | one more exhibit lands only in its own group |
| Gallery.BucketsPartition | index.php:113-129 | a visible exhibit is in exactly one group, a hidden draft in none |
| Gallery.BucketRules | index.php:115-128 | permanent first; then a truthy start after now is upcoming; a past group needs a truthy end before now; current is everything else |
| Gallery.UnreadableEndClosesCard | index.php:388-390 | a published exhibit with end date `soon` is filed under current, yet its card badge reads `Closed` |
| Gallery.CardBadge | index.php:381-395 | the corrected badge of a draft is `Draft` |
| Gallery.CardBadgeMatchesBucket | index.php:381-395 | the corrected badge of a published exhibit is Permanent, Opens or Closed exactly when its group is permanent, upcoming or past |
| Gallery.DraftOverrides | index.php:393-394 | a draft's badge is `Draft`, in the source's version and in the corrected one |
| ExhibitPage.Sanitize | exhibit.php:33 | the cleaned slug holds only `[a-z0-9-]` |
| ExhibitPage.SanitizeKeepsSlug | exhibit.php:33 | a slug already in `[a-z0-9-]` passes unchanged |
| ExhibitPage.SanitizeIdempotent | exhibit.php:33 | cleaning twice equals cleaning once |
| ExhibitPage.GeneratedSlugSurvives | exhibit.php:33 | every slug update_exhibits.php:104-113 hands out reaches the page unchanged |
| ExhibitPage.CandidateSlugChars | exhibit.php:33 | `base-n` of a well-formed base is well-formed |
| ExhibitPage.Lookup | exhibit.php:33-55 | an empty cleaned slug redirects; the page shows the exhibit under the cleaned slug exactly when it exists and is published or the visitor is signed in; otherwise 404 |
| ExhibitPage.Existing | exhibit.php:68-77 | the kept files are exactly the listed files on disk |
| ExhibitPage.ValidArtworks | exhibit.php:68-77 | the loop keeps exactly the listed files on disk, in order, and counts them |
| ExhibitPage.ExistingConcat | exhibit.php:71-75 | the filter keeps the relative order |
| ExhibitPage.Cover | exhibit.php:59-60 | the cover is the stored one when set, else the first listed artwork, else `""` |
| ExhibitPage.CoverImage | exhibit.php:118-131 | an image needs a non-empty cover, and is the cover's social variant when that is on disk |
| ExhibitPage.BadgeMatchesGalleryGroup | exhibit.php:84-103 | the page's badge names the group index.php:113-129 files the exhibit under: Permanent Collection, Opens, Closed, or one of the current forms |
| ExhibitPage.DateLineFollowsBadge | exhibit.php:90-102 | the date line is a range exactly for `Now through` and for `Closed` with a start |
| ExhibitPage.SinceBadgeStyledClosed | exhibit.php:471-476 | a started exhibit with an unreadable end date shows `Since …` in a badge styled `closed` |
| ExhibitPage.BadgeClassOf | exhibit.php:471-476 | the corrected class is empty exactly when there is no badge |
| ExhibitPage.BadgeClassAgrees | exhibit.php:471-476 | when every set date reads as a non-zero time, the written class is the badge's class |
| ExhibitPage.DescriptionParts | exhibit.php:134-137 | the pieces are the date line when set, the venue when set, and always the work count last |
| ExhibitPage.JoinEnds | exhibit.php:138 | `implode` ends with the last piece and starts with the first piece and the separator |
| ExhibitPage.OgDescriptionShape | exhibit.php:133-138 | the description ends with `N works` and starts with the date line when there is one |
| ExhibitPage.CaptionTitle | exhibit.php:551-552 | an artwork without metadata is captioned by its stem |
| ExhibitPage.GoTo | exhibit.php:560-563 | `goTo` keeps an index in range and wraps -1 and `total` into range |
| ExhibitPage.NextPrevInverse | exhibit.php:560-585 | `carousel(1)` and `carousel(-1)` undo each other |
| ExhibitPage.StepsWrap | exhibit.php:560-585 | k presses of next from i land on i + k, wrapped once |
| ExhibitPage.FullRound | exhibit.php:560-585 | `total` presses of next return to the start |
| ArtPage.RequestedFile | art.php:32-38 | the file is the basename of `?f=`, and is there exactly when that basename is not falsy |
| ArtPage.Open | art.php:32-47 | redirect exactly when no file is named; a shown file is on disk and holds no `/` |
| ArtPage.OgImagePreference | art.php:55-71 | the image is the social variant when on disk, else the large one, else the original |
| ArtPage.Title | art.php:73-90 | the metadata title when set and not empty, else the cleaned-up stem |
| ArtPage.TitleNotEmpty | art.php:73-90 | a file with a stem never gets the empty title |
| ArtPage.OgDescription | art.php:93-100 | `Artwork by <artist>`, then ` on <site>` when set, then ` - <location>` when set, in each of the four cases |
| ArtPage.NavFiles | art.php:102-111 | the navigation list holds exactly the listed images that are not large, medium, small or social variants |
| ArtPage.NavList | art.php:102-111 | the loop builds that list in listing order |
| ArtPage.Search | art.php:114 | `array_search` gives the first position of the file, and `false` exactly when it is not listed |
| ArtPage.UnlistedFileGetsNext | art.php:114-116 | a file on disk but not in the list (`c.JPG` beside `a.jpg`, `b.jpg`) gets the second artwork as its next neighbour |
| ArtPage.NeighboursOf | art.php:114-116 | the corrected neighbours of an unlisted file are none |
| ArtPage.NeighboursAdjacent | art.php:114-116 | a listed file's neighbours are the entries beside its first occurrence, none before the first and after the last, as written and corrected alike |
| ArtPage.NextThenPrev | art.php:114-116 | in a list without repeats, the next file's previous neighbour is the file itself |
| ArtPage.HandleSwipe | art.php:575-594 | a mostly horizontal swipe longer than 50 pixels goes to the previous artwork moving right and to the next moving left, when there is one |
| ArtPage.SwipeStays | art.php:575-594 | a short or vertical swipe does nothing |
| DeleteArtwork.UnlinkEach | delete.php:59-66 | exactly the versions that are files are removed and recorded; nothing else changes |
| DeleteArtwork.Delete | delete.php:10-106 | 401, 405 and 400 (missing or unsafe name) change nothing; otherwise the versions, the descriptor and the tile tree go, the metadata entry is dropped, and the reply lists what went or is 404 when nothing did |
| DeleteArtwork.RemoveFiles | delete.php:49-84 | the file half of the request removes the versions, the descriptor and the tile tree, recording each |
| DeleteArtwork.UnlinkVersions | delete.php:59-66 | the version loop leaves the state and report `UnlinkEach` describes |
| DeleteArtwork.SizedNameLength | delete.php:51-57 | a version name is the stem, the size, two separators and the extension long |
| DeleteArtwork.MapCopyKept | delete.php:51-57 | the `_map` copy is not a removed version, so it survives the deletion |
| DeleteArtwork.OnlyTargetsRemoved | delete.php:49-84 | an entry that disappears is a version, the descriptor or inside the tile directory; every other entry keeps its contents |
| DeleteArtwork.TargetsGone | delete.php:49-84 | every version file, the descriptor and the whole tile tree that existed are gone afterwards |
| DeleteArtwork.VersionsNoSlash | delete.php:51-57 | the versions of a name without `/` hold no `/` |
| DeleteArtwork.SizedNoSlash | delete.php:53-56 | a variant of a name without `/` holds no `/` |
| DeleteArtwork.DeletedNamesRemoved | delete.php:59-84 | a version is reported exactly when it was a file before the request |
| PhpExport.Escape | setup.php:363-368 | `var_export` of a string escapes quotes and backslashes, so the body is never shorter than the string |
| PhpExport.KeyParts | setup.php:360-363 | one key part per element: empty in an indexed array, else the exported key and ` => ` |
| PhpExport.LineList | setup.php:361-365 | one indented line per element |
| PhpExport.ParseValue | setup.php:24 | reading a value (the include of the written file) consumes some text |
| PhpExport.EscapeRoundTrip | setup.php:368 | a quoted literal reads back as the string it quotes |
| PhpExport.ParseIntRoundTrip | setup.php:368 | an exported integer reads back as itself |
| PhpExport.ParseStrRoundTrip | setup.php:368 | an exported string reads back as itself |
| PhpExport.ParseWordRoundTrip | setup.php:368 | `NULL`, `true` and `false` read back as themselves |
| PhpExport.ScalarRoundTrip | setup.php:368 | every printed scalar reads back as itself |
| PhpExport.KeyValue | setup.php:363 | a key prints as the scalar standing for it |
| PhpExport.KeyRoundTrip | setup.php:363 | a key literal reads back as that key |
| PhpExport.PrettyStart | setup.php:358-369 | a printed value never starts with white space or `]`, and only an array starts with `[` |
| PhpExport.BlockShape | setup.php:364 | each element line is the deeper indentation, the key part, the value and `,\n` |
| PhpExport.LineRead | setup.php:364-366 | one element line followed by the rest reads back as its entry and theirs |
| PhpExport.KeyShapeAt | setup.php:360-363 | the key part of element k fits that element: empty exactly when its key is k in an indexed array |
| PhpExport.BlockRoundTrip | setup.php:361-366 | the element lines of an array from position i on read back as its entries from i on, then the `]` |
| PhpExport.ElementFacts | setup.php:364 | each element's value reads back, starts well and has a fitting key part |
| PhpExport.ArrayOpen | setup.php:366 | an array opens with `[` and a line break, then its element lines |
| PhpExport.PrettyRoundTrip | setup.php:358-369 | whatever value is printed, at any white-space indentation, reads back as that value and leaves the text after it |
| PhpExport.JoinBlock | setup.php:366 | `implode(",\n", lines) . ",\n"` gives the element lines when there is at least one |
| PhpExport.AsWrittenAgrees | setup.php:358-369 | where no array is empty, the printer as written prints exactly the text of the corrected one |
| PhpExport.EmptyArrayAsWritten | setup.php:366 | as written, the empty array prints `[\n,\n<indent>]`; corrected, `[\n<indent>]` |
| PhpExport.EmptyArrayUnreadable | setup.php:366 | that text does not read back at all, whatever follows it |
| PhpExport.EmptyArrayRoundTrip | setup.php:366 | the corrected empty array reads back as the empty array |
| Setup.Keys | setup.php:250-262 | the keys of an array, in order |
| Setup.LookupSetKey | setup.php:250-262 | after `$config[k] = x`, k reads as x and every other key as before |
| Setup.SetKeyKeepsKeys | setup.php:250-251 | assigning to a key the array has keeps its keys and their order |
| Setup.SetKeyKeys | setup.php:250-251 | assigning to an existing key keeps the length and every key in place |
| Setup.SetKeyAppends | setup.php:255-262 | assigning to a new key appends it |
| Setup.LookupFirst | setup.php:250-262 | the first entry with a key is the one a lookup finds |
| Setup.ScalarOf | setup.php:251-261 | a JSON string is stored as that string and JSON null as NULL |
| Setup.NewlineAt | setup.php:348 | the first line break of the text, or its end |
| Setup.NewlineAfterStamp | setup.php:348 | the time stamp line ends at the stamp's end |
| Setup.IncludePreamble | setup.php:344-348 | a file with the wizard's header is read from after the header |
| Setup.IncludeProfileComment | update_profile.php:81-86 | a file with the profile rewrite's header returns the literal after `return` |
| Setup.StampLine | setup.php:348-349 | after the stamp line comes the end of the comment |
| Setup.OpeningLine | setup.php:349-350 | after the comment comes `return` and the literal |
| Setup.IncludeRoundTrip | setup.php:344-350 | including a file the wizard wrote returns the configuration it was written from |
| Setup.ReadForm | setup.php:58-63 | the form: trimmed name, trimmed and lower-cased email, the site title or `<name>'s Gallery`, joining when `join_network` is truthy |
| Setup.SiteUrl | setup.php:76-78 | the URL starts with `https://` exactly when HTTPS is set, not empty and not `off` |
| Setup.InitialConfigFields | setup.php:84-109 | the configuration holds the name, email, site title and site URL as the form gave them |
| Setup.InitialConfigPrintsAsWritten | setup.php:344-366 | the wizard's configuration holds no empty array, so the printer as written produces exactly the file the corrected one does (the configuration is the one built at setup.php lines 84-109) |
| Setup.InitialConfigStandalone | setup.php:101-108 | the configuration carries the fresh signing secret and starts with the network disabled |
| Setup.InitiateOutcomes | setup.php:166-205 | a curl error, a status other than 200 or an empty answer gives success false with its own error text; otherwise the network's answer is passed on |
| Setup.Rejection | setup.php:51-73 | an empty request is `Invalid request`; a request goes on exactly when it has a name and the email validates |
| Setup.Failure | setup.php:66-71 | a failure answers success false (as again at line 151) |
| Setup.AwaitingResponse | setup.php:130-135 | a pending registration answers success true |
| Setup.JoinFailedResponse | setup.php:139-143 | a failed registration answers success false and can continue standalone |
| Setup.ReadyResponse | setup.php:155-160 | a finished setup answers success true |
| Setup.SetupRequest | setup.php:48-161 | success is reported exactly when a configuration is written or waits in the session |
| Setup.SetupRejects | setup.php:51-73 | a rejected request answers its error and changes nothing |
| Setup.SetupJoins | setup.php:115-146 | joining writes no file; the configuration waits in the session exactly when the network accepted, else the answer offers standalone setup |
| Setup.SetupStandalone | setup.php:148-160 | standalone setup writes the initial configuration when the directory takes it, else answers the write error |
| Setup.SetupThenGate | setup.php:148-160 | what standalone setup writes passes the gate's test, since an accepted email is never empty (the gate is setup.php lines 22-29) |
| Setup.FileWithEmail | setup.php:344-350 | the file written from a configuration with an email makes the gate redirect (the gate is setup.php lines 22-29) |
| Setup.NestedLookup | setup.php:252-257 | a nested assignment changes only the outer key it goes through |
| Setup.EnableLookup | setup.php:250-252 | verification sets the central API and key, enables the network and changes no other key |
| Setup.WithOAuthLookup | setup.php:255-258 | only `oauth` changes, and only when the network sends a client id, with the fixed callback address |
| Setup.WithSecretLookup | setup.php:260-262 | only the signing secret changes, and only when the network sends one |
| Setup.VerifiedJoins | setup.php:249-262 | a verified registration joins the network and changes no key outside the merged ones |
| Setup.VerifiedOAuth | setup.php:255-258 | the OAuth settings change only when a client id is sent |
| Setup.VerifiedSecret | setup.php:260-262 | the signing secret changes only when one is sent |
| Setup.CheckWritesOnlyVerified | setup.php:210-285 | the session record ends exactly when the merged configuration is written, which happens only for a verified registration the directory takes |
| Setup.JoinThenGate | setup.php:247-272 | completing the registration keeps the email, so what it writes passes the gate's test (the gate is setup.php lines 22-29) |
| Setup.Installation.Gate | setup.php:17-31 | the wizard redirects exactly when either location holds a configuration with an email |
| Setup.Installation.HandleSetup | setup.php:48-161 | the answer and the new state are those `SetupRequest` gives: the file written, or the pending record stored, and the other location untouched |
| Setup.Installation.CheckStatus | setup.php:210-285 | the answer and new state are those of the polling rule; the pending record is cleared exactly when the file is written |
| UpdateProfile.ArgText | update_profile.php:47-70 | the string `trim` receives: a string as is, numbers and booleans converted, an array a TypeError |
| UpdateProfile.WebsiteOutcome | update_profile.php:51-64 | a stored website is empty or valid as given, or valid once `https://` is put in front of a scheme-less one; it is refused exactly when neither holds |
| UpdateProfile.WebsiteStoredValid | update_profile.php:51-65 | whatever is stored is empty or passes the validator |
| UpdateProfile.WebsiteIdempotent | update_profile.php:51-65 | a stored website is stored unchanged when sent again |
| UpdateProfile.ApplyFields | update_profile.php:43-78 | a stopped request answers 400 or 500; an edit needs at least one of bio, website, location |
| UpdateProfile.NothingToUpdate | update_profile.php:74-78 | with none of the three fields the request is refused with `No valid fields to update` |
| UpdateProfile.BadWebsiteRefused | update_profile.php:59-63 | a website that fails validation stops the request with `Invalid website URL` |
| UpdateProfile.StepLookup | update_profile.php:46-72 | each step sets its own key, when present, and leaves every other key alone |
| UpdateProfile.EditedFields | update_profile.php:43-72 | after an edit each field sent holds its trimmed value (the website completed); every other key is as before |
| UpdateProfile.PlainLine | update_profile.php:87-93 | each written line is the printer's line for its entry |
| UpdateProfile.EscapePlain | update_profile.php:87-93 | a key of lower-case letters and `_` is printed unchanged between quotes |
| UpdateProfile.ProfileKeysExactly | update_profile.php:86-94 | the file holds exactly the seven keys, each with its value or `''`; every other key is dropped |
| UpdateProfile.AbsentKey | update_profile.php:86-94 | a key no entry has is not found |
| UpdateProfile.ProfileIdempotent | update_profile.php:86-94 | rewriting a rewritten configuration changes nothing |
| UpdateProfile.PrettyVals | update_profile.php:87-93 | one printed value per entry |
| UpdateProfile.BlockStep | update_profile.php:87-93 | the printer's line for a keyed scalar entry is the file's line for it |
| UpdateProfile.LinesAreBlock | update_profile.php:86-94 | keyed scalar entries written line by line are the printer's element lines |
| UpdateProfile.ProfileRoundTrip | update_profile.php:80-94 | requiring the rewritten file returns the seven-key array it was written from |
| UpdateProfile.ProfileKeepsSiteConfigured | update_profile.php:80-94 | the rewritten file of a configured site still makes setup.php:22-29 redirect |
| UpdateProfile.IncludeOf | update_profile.php:80-94 | a file with the profile header returns the value printed after `return` |
| UpdateProfile.ProfileKeepsSetup | update_profile.php:43-94 | a profile update keeps the email, so a configured site stays configured |
| UpdateProfile.InvalidJsonRefused | update_profile.php:25-31 | a body that is not JSON, or decodes to an empty value, is refused with `Invalid JSON` |
| UpdateProfile.WrittenIffSaved | update_profile.php:10-105 | the file is rewritten exactly when the reply is the success reply, which needs sign-in, POST, a field and a writable file |
| UpdateProfile.PlainProfileKeys | update_profile.php:87-93 | the seven keys are plain |
| UpdateProfile.ProfileEntriesAt | update_profile.php:87-93 | the i-th entry written is the one kept for the i-th key |
| UpdateProfile.ProfileLines | update_profile.php:87-93 | the i-th line written is the endpoint's line for the i-th key |
| UpdateProfile.AppendProfileLines | update_profile.php:87-93 | the seven `'key' => value,` lines are appended in the file's order |
| UpdateProfile.ConfigContent | update_profile.php:81-94 | the text built piece by piece is the profile file |
| UpdateProfile.EditFields | update_profile.php:46-72 | the three assignments give the edit `ApplyFields` describes |
| UpdateProfile.ProfileStore.Update | update_profile.php:10-105 | the reply and the written file are those of the request rule; the stored configuration becomes the seven-key array exactly when written |
| ReceiveArtwork.KeyRefusal | api/receive_artwork.php:31-39 | the request goes on exactly when the header key is non-empty and equals the configured string key; otherwise 401, or a fatal error for a configured key that is not a string |
| ReceiveArtwork.Gate | api/receive_artwork.php:13-39 | the request gets past the gate exactly when the site is configured, it is a POST and the key matches |
| ReceiveArtwork.Admit | api/receive_artwork.php:41-58 | a counter of another hour restarts from 0; the request is refused exactly at 20, otherwise the counter goes up by one for this hour |
| ReceiveArtwork.CheckBase | api/receive_artwork.php:60-74 | an accepted base name comes from a non-empty `filename_base`, is non-empty and holds only `[A-Za-z0-9_-]` |
| ReceiveArtwork.CleanBaseKept | api/receive_artwork.php:69 | a clean base name comes through unchanged |
| ReceiveArtwork.SafeName | api/receive_artwork.php:112-113 | the safe name holds only `[A-Za-z0-9_.-]` |
| ReceiveArtwork.SavedNames | api/receive_artwork.php:86-126 | at most one saved name per upload, each safe and starting with the base |
| ReceiveArtwork.SavedNamesExactly | api/receive_artwork.php:92-125 | a name is saved exactly when an upload that passes the checks and moves carries it |
| ReceiveArtwork.SavedNameHasUpload | api/receive_artwork.php:92-125 | every saved name comes from an upload that passed the checks and moved |
| ReceiveArtwork.UploadNameSaved | api/receive_artwork.php:92-125 | every upload that passes the checks and moves has its safe name saved |
| ReceiveArtwork.SavedNamesStayInUploads | api/receive_artwork.php:112-120 | a saved name has no `/` and is neither `.` nor `..`, so it stays in uploads/ |
| ReceiveArtwork.OriginalOf | api/receive_artwork.php:152-159 | the original is `base.jpg` or `base.png` |
| ReceiveArtwork.OriginalIsFirst | api/receive_artwork.php:154-159 | the original is the first such name saved |
| ReceiveArtwork.OriginalDefault | api/receive_artwork.php:153 | without one the original is `base.jpg` |
| ReceiveArtwork.ChooseOriginal | api/receive_artwork.php:152-159 | the loop with `break` picks that original |
| ReceiveArtwork.IntakeRate | api/receive_artwork.php:41-58 | the counter moves exactly for the requests past the key check and under the limit; other requests change nothing |
| ReceiveArtwork.CountedBeforeValidation | api/receive_artwork.php:57-67 | a request past the key and the limit is counted even when its metadata is then refused with 400 |
| ReceiveArtwork.KeyRequired | api/receive_artwork.php:31-39 | only a request carrying the configured non-empty key changes anything or succeeds |
| ReceiveArtwork.AtMostLimitPerHour | api/receive_artwork.php:49-57 | within one hour at most 20 requests pass the counter, counting those already counted |
| ReceiveArtwork.AllCountedBelowLimit | api/receive_artwork.php:49-57 | below the limit every request with the right key is counted |
| ReceiveArtwork.MetaOnlyOnSuccess | api/receive_artwork.php:145-175 | artwork_meta.json changes only on success, and then only at the original's key, to a published entry uploaded via e-mail |
| ReceiveArtwork.PublishedEntry | api/receive_artwork.php:161-175 | writing the new entry keeps every other key as it was and records the original, published, uploaded via e-mail |
| ReceiveArtwork.SuccessHasFiles | api/receive_artwork.php:139-187 | a success reports the saved count, at least one, and an original named `base.jpg` or `base.png` |
| ReceiveArtwork.NoFilesNoMeta | api/receive_artwork.php:139-143 | without a saved file the reply is 400 and artwork_meta.json is untouched |
| ReceiveArtwork.NewUploadsSafe | api/receive_artwork.php:112-123 | every file the request adds to uploads/ starts with the base and holds no path |
| ReceiveArtwork.Site.SaveUploads | api/receive_artwork.php:86-126 | the loop saves exactly the names `SavedNames` gives, adds them to uploads/ and touches nothing else |
| ReceiveArtwork.Site.SaveUpload | api/receive_artwork.php:93-124 | one file is moved in under its safe name exactly when it has no upload error, a non-empty temporary path, one of the four image types, a safe name starting with the base, and the move succeeds; otherwise uploads/ is unchanged |
| ReceiveArtwork.Site.Receive | api/receive_artwork.php:13-187 | the reply, counter, uploads and metadata after the run are those the request rule gives |
| Auth.HostLabel | auth.php:48 | a matched label is a non-empty run of `[a-z0-9-]` (either case) followed by a dot at the front of the host |
| Auth.Subdomain | auth.php:45-55 | the subdomain is the whole host, or a non-empty lower-case label |
| Auth.SubdomainOfLabel | auth.php:48-50 | a host `<label>.<site_domain>` gives the lower-cased label |
| Auth.HostLabelOf | auth.php:48 | the pattern matches the label of such a host |
| Auth.SubdomainOfOtherHost | auth.php:52-55 | a host that does not end in `.` and the site domain is its own subdomain |
| Auth.SessionVars | auth.php:211-216 | a signed-in session holds `artist_authenticated` set to true, and no other session holds that key |
| Auth.EnforceTimeout | auth.php:62-68 | a login more than 3600 seconds old empties the session; otherwise it is kept |
| Auth.FreshAfterTimeout | auth.php:62-68 | after the check a signed-in session is at most an hour old |
| Auth.StateRoundTrip | auth.php:119-120 | the OAuth state `subdomain|csrf` splits at its first `|` back into the subdomain and the token |
| Auth.InitiateOAuth | auth.php:114-145 | the CSRF token is stored in every case; the reply redirects to Google exactly for provider `google` with a client id, with the state in the query |
| Auth.SplitToken | auth.php:158-166 | `explode('.', token, 2)` gives a payload without `.` and the signature after it |
| Auth.SignInRequires | auth.php:149-220 | a sign-in succeeds only for a well-formed token with a matching signature and decodable claims that have not expired and carry the artist's e-mail; the session is then signed in as of now |
| Auth.FailedVerifyKeepsLogin | auth.php:149-205 | any other outcome leaves the sign-in fields as they were |
| Auth.SignatureBeforeDecode | auth.php:167-173 | the signature is checked before the payload is decoded |
| Auth.NoExpNoExpiry | auth.php:181-185 | expiry is enforced only when the claims carry `exp` |
| Auth.CsrfRule | auth.php:187-194 | the CSRF tokens are compared only when both sides carry one; a mismatch is refused and changes nothing; otherwise the stored token is dropped |
| Auth.Logout | auth.php:226-238 | logout empties the session |
| Auth.Status | auth.php:243-259 | the status reports whether the session is signed in, and the e-mail only when it is |
| Auth.StatusAfterSignIn | auth.php:211-253 | after a sign-in the status reports the artist's e-mail |
| Auth.IssueVideoToken | auth.php:264-310 | 401 unless signed in; the counter restarts in a new hour window and refuses at ten; otherwise a token is issued and the count goes up by one |
| Auth.AtMostTenPerWindow | auth.php:275-289 | within one hour window at most ten tokens are issued, counting those already issued |
| Auth.VideoTokenVerifies | auth.php:291-300 | a video token passes the format and signature steps of verifyToken and decodes to its claims (verifyToken is auth.php lines 158-178) |
| Auth.MagicOnlyForArtist | auth.php:491-539 | a magic link is asked for only for a valid address equal to the artist's, for this subdomain; otherwise the reply is a failure |
| Auth.AuthSession.Handle | auth.php:45-110 | one request: the subdomain from the host, the timeout, then the action's rule, and `Invalid action` for anything else |
| ApplyUpdate.Parent | api/apply_update.php:191 | `dirname` of a relative path is a prefix of it ending before a `/`, or the root |
| ApplyUpdate.MakeDir | api/apply_update.php:39-41 | `mkdir` when absent adds at most the directory and changes nothing else |
| ApplyUpdate.PutFile | api/apply_update.php:190-195 | writing a file changes at most the file and its parent directory |
| ApplyUpdate.PruneDir | api/apply_update.php:204-214 | `deleteDirectory` removes exactly the directory and everything under it |
| ApplyUpdate.AsWrittenRefusesArtist | api/apply_update.php:11 | the guard tests `$_SESSION['authenticated']`, which no session made by auth.php:211-216 holds, so a signed-in artist is refused |
| ApplyUpdate.AdmitsSignedIn | api/apply_update.php:11 | testing the key auth.php sets admits exactly the signed-in sessions |
| ApplyUpdate.SkipTest | api/apply_update.php:66-75 | the loop over the excluded directories, leaving at the first match, and the file check compute the skip rule |
| ApplyUpdate.BackupSkipsExactly | api/apply_update.php:53-75 | the backup leaves out artist_config.php and the trees backups, temp_update, uploads, logs, dzi and .git |
| ApplyUpdate.PreservesExactly | api/apply_update.php:157-180 | the copy leaves alone artist_config.php and the trees uploads, logs, dzi, backups and .git |
| ApplyUpdate.BackupSkipsPreservedAndScratch | api/apply_update.php:53-54 | the two filters differ only in the scratch directory temp_update (the backup filter is lines 157-158) |
| ApplyUpdate.SlashedDir | api/apply_update.php:68 | a path `q/` is in a directory exactly when q is |
| ApplyUpdate.ParentInDir | api/apply_update.php:176 | a path whose parent lies in a directory lies there too |
| ApplyUpdate.ParentPreserved | api/apply_update.php:175-180 | a path under a preserved directory is preserved |
| ApplyUpdate.BackupEntries | api/apply_update.php:61-84 | at most one archive entry per walked path |
| ApplyUpdate.BackupEntriesFaithful | api/apply_update.php:61-84 | every archive entry comes from a walked path the filter keeps and holds what the installation holds there |
| ApplyUpdate.BackupHoldsFiles | api/apply_update.php:77-82 | every walked file the filter keeps is in the archive with its contents |
| ApplyUpdate.FirstDirIsFirst | api/apply_update.php:134-145 | the release's root folder is the first directory of the listing other than `.` and `..`, and there is none exactly when no entry qualifies |
| ApplyUpdate.FindRoot | api/apply_update.php:134-141 | the loop with `break` finds that folder |
| ApplyUpdate.MissingCritical | api/apply_update.php:147-153 | the first critical file missing under the root, and none exactly when all four are there |
| ApplyUpdate.CheckCritical | api/apply_update.php:148-153 | the loop finds that file |
| ApplyUpdate.CopiedFiles | api/apply_update.php:166-199 | the copied paths are exactly the walked release files that are not preserved |
| ApplyUpdate.CopiedCount | api/apply_update.php:165-201 | `copiedCount` counts exactly those files, directories not included |
| ApplyUpdate.InstallKeepsPreserved | api/apply_update.php:166-199 | the copy keeps every preserved path as it was and creates nothing under a preserved directory |
| ApplyUpdate.InstallCopies | api/apply_update.php:182-197 | every release file the filter lets through is installed with the release's contents, unless a directory stands at its path |
| ApplyUpdate.InstallNoDirAt | api/apply_update.php:166-199 | the copy never puts a directory where a release file goes |
| ApplyUpdate.PutFileWrites | api/apply_update.php:195 | a file write lands unless a directory stands at its path |
| ApplyUpdate.PutFileElsewhere | api/apply_update.php:190-195 | a write elsewhere leaves a path alone, unless it is the written path's parent |
| ApplyUpdate.CopyStepWrites | api/apply_update.php:182-197 | the step for a path writes the release's file there |
| ApplyUpdate.CopyStepKeeps | api/apply_update.php:182-197 | the step for another path leaves this one as it is |
| ApplyUpdate.CopyRelease | api/apply_update.php:160-199 | the copy loop leaves the tree and count `Install` describes |
| ApplyUpdate.InsertByAge | api/apply_update.php:220-222 | an insertion step adds exactly one archive |
| ApplyUpdate.InsertByAgeOrdered | api/apply_update.php:220-222 | inserting into a newest-first list keeps it newest first |
| ApplyUpdate.ByNewest | api/apply_update.php:220-222 | `usort` by mtime gives a newest-first permutation of the archives |
| ApplyUpdate.Without | api/apply_update.php:224-226 | after unlinking, exactly the archives with other names are left |
| ApplyUpdate.Retention | api/apply_update.php:217-228 | with five or fewer archives nothing goes; otherwise exactly the five newest stay and every survivor is at least as new as every deleted archive |
| ApplyUpdate.KeptNewer | api/apply_update.php:220-223 | one of the five newest is at least as new as any archive outside them |
| ApplyUpdate.LeftIsKept | api/apply_update.php:223-226 | a survivor is one of the five newest |
| ApplyUpdate.KeptIsLeft | api/apply_update.php:223-226 | each of the five newest survives |
| ApplyUpdate.DownloadUrl | api/apply_update.php:26-32 | a usable download URL is truthy |
| ApplyUpdate.RunRefuses | api/apply_update.php:9-32 | 403 without the session flag, 400 without a usable `download_url`; nothing changes then, and these are the only refusals |
| ApplyUpdate.SignedInRefused | api/apply_update.php:11 | as written, a session signed in through auth.php gets 403 and nothing changes |
| ApplyUpdate.SignedInAdmitted | api/apply_update.php:11 | with the key auth.php sets, a signed-in request with a download URL gets past the guard |
| ApplyUpdate.FailureInstallsNothing | api/apply_update.php:239-259 | a failed update changes no installed file apart from creating backups/ and removing temp_update/; the backup, once opened, is kept, and then the failure is in the download or the release |
| ApplyUpdate.PreservedNotScratch | api/apply_update.php:157-158 | no preserved path lies in temp_update |
| ApplyUpdate.InDirFirst | api/apply_update.php:176 | a path in a directory starts with the directory's first character |
| ApplyUpdate.SuccessKeepsPreserved | api/apply_update.php:156-237 | a successful update leaves the configuration file and the preserved directories as they were |
| ApplyUpdate.SuccessInstalls | api/apply_update.php:156-201 | a successful update installs each release file the filter lets through, and reports the number copied |
| ApplyUpdate.SuccessRetains | api/apply_update.php:217-228 | after a successful update exactly the five newest archives remain, the new one counted |
| ApplyUpdate.Installation.Apply | api/apply_update.php:9-260 | the reply and the new installation are those of the request rule with the guard as written |
| ApplyUpdate.Installation.Update | api/apply_update.php:89-237 | a failed download or release removes temp_update and keeps the archives; otherwise the release is installed, temp_update removed, the old archives pruned and the steps reported |
| ApplyUpdate.Installation.Retain | api/apply_update.php:217-228 | step 8 unlinks all but the five newest archives and touches no installed file |
| ApplyUpdate.Installation.WriteBackup | api/apply_update.php:56-84 | the backup loop collects the archive entries of the walk |
| ApplyUpdate.Installation.RemoveBackups | api/apply_update.php:224-226 | the unlink loop removes exactly the named archives |
| ApplyUpdate.Fetching | api/apply_update.php:89-154 | the download, extraction and checks give the outcome and steps the release rule describes |
| ApplyUpdate.WithoutMore | api/apply_update.php:224-226 | unlinking one more name equals unlinking all the names at once |
| RollbackUpdate.LatestIsNewest | api/rollback_update.php:26-37 | an archive is restored exactly when the glob finds one, and it is one of the newest |
| RollbackUpdate.LatestFirstOfNewest | api/rollback_update.php:33-37 | among archives of the same age the one restored is the earliest in glob order |
| RollbackUpdate.ExtendFirstOfNewest | api/rollback_update.php:33-37 | one more archive in glob order takes over only when strictly newer |
| RollbackUpdate.ByNewestHead | api/rollback_update.php:33-37 | the head after the sort: the last archive in glob order wins only when strictly newer |
| RollbackUpdate.InsertHead | api/rollback_update.php:33-35 | inserting by age puts the newer of the two heads first, the earlier one on a tie |
| RollbackUpdate.RestoredFiles | api/rollback_update.php:52-88 | the entries written are exactly those neither preserved nor directory entries |
| RollbackUpdate.RestoredCount | api/rollback_update.php:51-91 | `extractedCount` counts exactly those entries |
| RollbackUpdate.DirEntryPreserved | api/rollback_update.php:60-65 | a directory entry of a preserved directory is itself preserved |
| RollbackUpdate.RestoreKeepsPreserved | api/rollback_update.php:46-88 | the rollback keeps every preserved path as it was and creates nothing under a preserved directory |
| RollbackUpdate.RollbackRestoresBackup | api/rollback_update.php:52-88 | restoring a backup written by api/apply_update.php:44-87 brings back every file it took, with its contents then, unless a directory now stands at its path |
| RollbackUpdate.RestoreNoDirAt | api/rollback_update.php:52-88 | the invariant behind that round trip, over every prefix of the backup walk |
| RollbackUpdate.RestoreStepAt | api/rollback_update.php:67-86 | one extraction step writes its own path and leaves every other path alone |
| RollbackUpdate.RollbackChangesOnlyFiles | api/rollback_update.php:10-110 | the archives never change; the installed files change only when the session flag is set, an archive exists and opens |
| RollbackUpdate.RollbackRefusesSignedIn | api/rollback_update.php:10 | as written, a session signed in through auth.php gets 403 and nothing is restored |
| RollbackUpdate.RollbackAdmitsSignedIn | api/rollback_update.php:10 | testing the key auth.php sets, a signed-in rollback with an openable archive is carried out |
| RollbackUpdate.RollbackRestoresNewest | api/rollback_update.php:26-101 | a rollback restores one of the newest archives and reports its name and the number of files written |
| RollbackUpdate.RestoreEntries | api/rollback_update.php:51-88 | the extraction loop computes the restore rule |
| RollbackUpdate.RollbackInstallation | api/rollback_update.php:9-110 | the reply and the new installation are those of the request rule with the guard as written |
| CheckUpdate.Vs | api/check_update.php:55 | a run of n lower-case 'v's has length n |
| CheckUpdate.StripV | api/check_update.php:55 | `ltrim($tag, 'v')`: the tag is a run of 'v's followed by the result, which does not start with 'v' |
| CheckUpdate.StripVCons | api/check_update.php:55 | one leading 'v' is stripped like the rest |
| CheckUpdate.StripVPrefixed | api/check_update.php:55 | any run of leading 'v's is removed and nothing else |
| CheckUpdate.ZipNameOfExtension | api/check_update.php:65 | `/\.zip$/i` accepts a name ending in ".zip" in any case, also before a final newline |
| CheckUpdate.ScanStopsAtFirst | api/check_update.php:64-69 | the asset loop stops at the first asset with a ZIP name |
| CheckUpdate.ScanFindsNothing | api/check_update.php:64-69 | the loop finds nothing exactly when no asset has a ZIP name |
| CheckUpdate.FindAsset | api/check_update.php:63-70 | the foreach loop with its break computes that scan |
| CheckUpdate.FetchFailureDetails | api/check_update.php:33-41 | a status other than 200 is a failed fetch whose details are curl's error, or the HTTP status when curl gave none |
| CheckUpdate.ReleaseReported | api/check_update.php:43-86 | a release is reported exactly for a 200 reply whose object has a tag; the latest version is the tag without its leading 'v's and the update flag is version_compare's verdict |
| CheckUpdate.DownloadUrlChoice | api/check_update.php:59-74 | the download URL is that of the first ZIP asset when truthy, otherwise zipball_url |
| CheckUpdate.ZipballWithoutAsset | api/check_update.php:72-74 | with no ZIP asset the zipball is offered |
| CheckUpdate.CheckForUpdate | api/check_update.php:33-86 | the script, with the asset loop as a loop, gives the reply the rule describes |
| Export.SignedInAfterLogin | api/export.php:11 | the export's check passes exactly for sessions in which the artist signed in through auth.php |
| Export.Sanitize | api/export.php:28 | `preg_replace('/[^a-zA-Z0-9_-]/', '_', …)` keeps the length, keeps every allowed character and leaves only allowed ones |
| Export.SanitizeKeepsSafe | api/export.php:28 | a name of allowed characters comes back unchanged |
| Export.SanitizeIdempotent | api/export.php:28 | sanitising twice is sanitising once |
| Export.ArtistNameSafe | api/export.php:27-28 | the artist name, `name` or "artist", holds only allowed characters |
| Export.ZipFileNameOfSafe | api/export.php:29 | a safe name and a date free of '/' and '"' give an archive name free of both, ending in .zip |
| Export.ZipFileNameSafe | api/export.php:27-66 | the archive name cannot leave the temporary directory or break out of the quoted header |
| Export.ArchiveNameOfUpload | api/export.php:45 | each upload is stored at uploads/ followed by its path under the uploads directory |
| Export.UploadEntriesAreUploads | api/export.php:43-48 | every archive entry from the loop is a visited upload file, under uploads/ and its path |
| Export.UploadEntriesComplete | api/export.php:43-48 | every visited upload file is in the archive |
| Export.EveryUploadExported | api/export.php:40-48 | when the iterator covers the uploads directory, every file under uploads/ is exported under its own path |
| Export.AddUploads | api/export.php:43-48 | the foreach over the iterator computes those entries |
| Export.Unset | api/export.php:58 | `unset` removes exactly the entry under the key and keeps the rest |
| Export.LookupUnset | api/export.php:58 | after unset the key is gone and every other key reads as before |
| Export.RedactedFields | api/export.php:55-59 | the exported profile has no api_key, auth_signing_secret or oauth, and every other key with its value |
| Export.RedactedEntries | api/export.php:57-58 | the redacted profile is the configuration minus the entries under those three keys |
| Export.ExportDelivers | api/export.php:11-70 | a download happens exactly for a signed-in artist with something under uploads and an archive that opens; it then holds every upload, the metadata exactly when present, and the profile without credentials exactly when the configuration is non-empty |
| Export.AddExtras | api/export.php:50-60 | the metadata and profile entries are added each only when there is one |
| Export.ExportArtwork | api/export.php:11-70 | the request, with the iterator loop as a loop, gives the reply the rule describes |
| Settings.HostLabel | settings.php:26-27 | the label `/^([a-z0-9-]+)\.painttwits\.com$/i` captures is a non-empty prefix of the host made of letters, digits and '-' |
| Settings.HostLabelOf | settings.php:26-27 | a host `<label>.painttwits.com`, in any case and with or without a final newline, yields its label |
| Settings.SubdomainSource | settings.php:22-29 | the configured subdomain wins; otherwise the Host header's label; a host of another form leaves it empty |
| Settings.ConfirmTextOrder | settings.php:79 | the confirmation text is the subdomain when there is one, else site_domain, else email, else empty |
| Settings.SkipSpace | settings.php:61 | intval skips leading blanks |
| Settings.IntOfTextOfInt | settings.php:61-63 | intval reads back what PHP prints for an integer |
| Settings.CanCreateMoreWhen | settings.php:42-63 | off the network or without a usable status reply no subdomain can be added; a paid account always can, otherwise only below the maximum (as used at line 534) |
| Settings.InputFilter | settings.php:592 | the field only ever holds lower-case letters, digits and '-' |
| Settings.InputFilterSettled | settings.php:592 | the filtered field is trimmed and lower-case already, and filtering again changes nothing (the same filter is at line 828) |
| Settings.ValidExactly | settings.php:836 | the intended validator accepts exactly names of 2 to 50 characters that start with a letter, end with a letter or digit and hold letters, digits and '-' |
| Settings.AsWrittenAcceptsOneLetter | settings.php:836-838 | as written the validator accepts "a", which the message and minlength="2" rule out |
| Settings.AsWrittenOnlyAddsOneLetter | settings.php:836 | the single letters are all the validator as written admits beyond the intended one |
| Settings.CreateRequestSends | settings.php:828-850 | as written, the well-formed names and the single letters are sent, as the filtered text |
| Settings.CreateRequestSendsIntended | settings.php:828-850 | with the intended validator only well-formed names are sent |
| Settings.OneLetterSent | settings.php:836 | one lower-case letter is sent as written and stopped by the intended validator |
| Settings.CentralErrorEmpty | settings.php:86-140 | the central step leaves no error exactly when the site is off the network, the server agreed, or its error is empty |
| Settings.FailedRequestBlocks | settings.php:136-140 | a failed HTTP request stops the deletion with "API request failed (HTTP …)" |
| Settings.DeletionNeedsConsent | settings.php:72-104 | nothing is deleted without a signed-in artist's POST of delete_account with the session's token and the matching confirmation |
| Settings.CentralBeforeLocal | settings.php:84-104 | once consent is given, local files go exactly when the central step leaves no error; a refusal with a message is shown and nothing is deleted |
| Settings.DecideAfterConsent | settings.php:84-104 | once consent is given, only the central server's error decides between deletion with redirect and the error page |
| Settings.ButtonAgreesWithServer | settings.php:78-83 | for typed text without surrounding blanks the button is enabled exactly when the server would accept the text (the client-side test is lines 758-763) |
| Settings.InDirTrans | settings.php:185-193 | a path under a directory under another is under that one too |
| Settings.ClearedAt | settings.php:153-193 | after the glob loop a path is left exactly when no glob result swept it, and keeps its contents |
| Settings.ClearUploads | settings.php:153-161 | the foreach over the glob results computes that tree |
| Settings.NotePathInRoot | settings.php:172 | a date stamp without '/' gives a note in the site root |
| Settings.DeletionNoteInRoot | settings.php:170-177 | the note of deleteLocalAccount lies in the site root |
| Settings.WriteElsewhere | settings.php:172-176 | a write elsewhere leaves a path alone unless it is the written path's parent |
| Settings.RootParent | settings.php:172 | a path without '/' lies in the site root |
| Settings.ConfigAtTop | settings.php:148-149 | the configuration and the metadata file lie in the site root |
| Settings.LaterStepsKeep | settings.php:164-177 | steps 2 and 3 touch only the metadata file, the note, its directory and the configuration |
| Settings.NotTouchedLater | settings.php:164-177 | nothing under uploads is touched by steps 2 and 3 |
| Settings.UploadsGone | settings.php:152-161 | every path under a visible entry of uploads is gone afterwards |
| Settings.HiddenUploadsKept | settings.php:154 | hidden entries directly inside uploads, and everything under them, survive, since `glob('*')` skips them |
| Settings.LocalDeletionElsewhere | settings.php:146-182 | outside uploads every path but the metadata file, the note, its directory and the configuration keeps its contents |
| Settings.OutsideUploadsKept | settings.php:153-161 | the glob loop touches nothing outside uploads |
| Settings.LocalDeletionRewrites | settings.php:164-177 | the metadata file goes, and an existing configuration is replaced by the deleted-account one, beside the note |
| Settings.ApplyDeletion | settings.php:146-182 | the three steps with the glob loop give the tree the deletion rule describes |
| Settings.DeleteLocalAccount | settings.php:146-182 | the note and replacement configuration come from the configuration and the clock |
| Settings.HandleDeleteRequest | settings.php:72-112 | the outcome is the decision rule's, and the local deletion happens exactly when the outcome is a deletion |
| Theme.StoredAfterWrite | assets/js/theme.js:24-75 | after a write the key reads back as the value written, or the fallback when it is empty; other keys are untouched |
| Theme.Defaults | assets/js/theme.js:24-30 | with nothing stored the mode is "system" and the gallery theme "minimal", a listed theme |
| Theme.StoredNeverEmpty | assets/js/theme.js:24-30 | the stored mode and theme are never read back empty |
| Theme.NextModeIsMode | assets/js/theme.js:80-85 | the cycle lands on a mode, and any other stored value restarts it at light |
| Theme.CycleOfThree | assets/js/theme.js:82 | three steps from a mode come back to it and no fewer |
| Theme.NextModeInjective | assets/js/theme.js:82 | two modes step to two different modes |
| Theme.IconsTellModesApart | assets/js/theme.js:88-92 | the icon tells the three modes apart and shows any other value like system |
| Theme.AttributesDetermineChoice | assets/js/theme.js:33-52 | "system" and "minimal" remove their attribute, other values set it, so the attribute tells which value was applied |
| Theme.ActiveFlags | assets/js/theme.js:55-65 | a button is active exactly when its value is the choice |
| Theme.OneButtonActive | assets/js/theme.js:55-65 | among buttons with distinct values at most one is active |
| Theme.ThemeSwitcher.constructor | assets/js/theme.js:8-22 | the page as loaded: nothing applied, no button active, the cycle buttons blank |
| Theme.ThemeSwitcher.UpdateModeButtons | assets/js/theme.js:55-59 | the forEach sets each mode button's active flag and nothing else |
| Theme.ThemeSwitcher.UpdateThemeButtons | assets/js/theme.js:61-65 | the forEach sets each theme button's active flag and nothing else |
| Theme.ThemeSwitcher.ApplyMode | assets/js/theme.js:33-41 | data-theme is removed for "system" and set to the mode otherwise, then the mode buttons follow |
| Theme.ThemeSwitcher.ApplyGalleryTheme | assets/js/theme.js:44-52 | data-gallery-theme is removed for "minimal" and set otherwise, then the theme buttons follow |
| Theme.ThemeSwitcher.SetMode | assets/js/theme.js:68-71 | the mode is stored and that same mode applied |
| Theme.ThemeSwitcher.SetGalleryTheme | assets/js/theme.js:74-77 | the theme is stored and that same theme applied |
| Theme.ThemeSwitcher.CycleMode | assets/js/theme.js:80-85 | the stored mode's successor, always a mode, is stored, applied and returned |
| Theme.ThemeSwitcher.Init | assets/js/theme.js:95-126 | the stored mode and theme are applied and every cycle button shows the stored mode's icon and title |
| Theme.ThemeSwitcher.ClickCycle | assets/js/theme.js:120-124 | a click cycles the mode and that button shows the new mode's icon and title |
| UploadScript.HeicByExtension | assets/js/upload.js:52-62 | a .heic or .heif name in any case is HEIC whatever type the browser reports, and such a file is always taken |
| UploadScript.SkippedFiles | assets/js/upload.js:60-62 | a file is skipped exactly when its type is not image/… and it is not HEIC by name |
| UploadScript.ConvertedNameOfHeic | assets/js/upload.js:95 | a name ending in .heic or .heif loses exactly that extension for .jpg, and is then no HEIC name |
| UploadScript.ConvertedNameOtherwise | assets/js/upload.js:95 | any other name is kept, so a file HEIC only by its type is posted under its own name |
| UploadScript.Escaped | assets/js/upload.js:150-152 | the escaped text holds no '<' or '>' |
| UploadScript.ReplaceAllConcat | assets/js/upload.js:151 | a global replace distributes over concatenation |
| UploadScript.ReplaceAllAbsent | assets/js/upload.js:151 | replacing a character that does not occur changes nothing |
| UploadScript.EscapeHtmlChar | assets/js/upload.js:151 | the three passes escape one character to its entity, the '&' of a later pass never doubled |
| UploadScript.EscapeHtmlIsPerChar | assets/js/upload.js:150-152 | the three passes escape each character on its own |
| UploadScript.EscapeHtmlInert | assets/js/upload.js:150-152 | the escaped name cannot open or close a tag in the progress item (the name is escaped at line 66) |
| UploadScript.UnescapeEscaped | assets/js/upload.js:150-152 | reading the escaped name as HTML gives the name back (the name is escaped at line 66) |
| UploadScript.EscapeHtmlRoundTrip | assets/js/upload.js:150-152 | escapeHtml and reading as HTML are inverse (the name is escaped at line 66) |
| UploadScript.NewItems | assets/js/upload.js:50-75 | handleFiles adds at most one item per file |
| UploadScript.NewItemsFromFiles | assets/js/upload.js:50-75 | every item added is the fresh item of a taken file from the list |
| UploadScript.EveryAcceptedFileListed | assets/js/upload.js:50-75 | every taken file gets an item |
| UploadScript.NewItemsSnoc | assets/js/upload.js:50-75 | the items of the files then one more are those of the files followed by that file's |
| UploadScript.PostedOnlyConverted | assets/js/upload.js:69-103 | a HEIC file is posted only once converted, as JPEG under a non-HEIC name; without the converter nothing is posted |
| UploadScript.SuccessNeedsPostedFile | assets/js/upload.js:111-147 | an item succeeds exactly when its file was posted and upload.php reported success, and its status then says whether it was synced |
| UploadScript.FailureExplained | assets/js/upload.js:138-147 | a failed item never shows an empty status (the other failure paths are lines 80-83 and 104-108) |
| UploadScript.ProgressPanel.HandleFiles | assets/js/upload.js:39-76 | an empty list does nothing; otherwise the container exists and one item per taken file is appended in order |
| UploadScript.ProgressPanel.Settle | assets/js/upload.js:78-147 | the converter's and upload.php's callbacks set item i's status and class and change nothing else |

## Left out

- Pixel work: Imagick's autoOrient, resizing, cropping, JPEG encoding and quality. A raster is only its width and height, and a tile is only its crop rectangle.
- `log($maxDimension, 2)` and `ceil($w / $scale)` are floating point in generate_dzi.php:79-100 and email-handler/email_artwork_handler.php:587-600. They are modelled as the exact integer `DziGeometry.CeilLog2` and `CeilDiv`. Floating-point rounding, which may make `ceil(log(n, 2))` one too high when `n` is a large power of two, is not followed.
- The HTTP endpoint mode of generate_dzi.php (lines 232-264, a signed-in GET that calls `generateDZI`) is not modelled; `DziGenerator.GenerateDzi` and `ZoomPage.Show` cover the generator itself.
- The ZipArchive extraction of a pre-built tile pyramid in api/receive_artwork.php:129-137 is not modelled; the pushed artwork's image files and metadata are.
- Concurrency: the check-then-act test at generate_dzi.php:46 and the read-modify-write of the JSON stores, the rate files and the backups have no locking. The model is one sequential request at a time.
- Logging (`error_log`, `console.log`), HTML and CSS rendering beyond the texts and classes listed above, share buttons, the map and the OpenSeadragon options are left out.
- IMAP, PDO queries, `mail()`, cURL, sessions and cookies, HMAC-SHA256, base64, `json_decode`, `filter_var`, `random_bytes` and `uniqid` are inputs or function parameters. The models state what follows from their results, not how the results arise.
- The clock (`time()`, `date()`, `strtotime()`) is an input. `strtotime` is a function parameter, and a date text becomes a stamp or nothing.
- `version_compare` is the parameter `newer` of `CheckUpdate.Check`; the model states that the reply's update flag is its verdict.
- JSON numbers are integers. A float anywhere in a JSON store or request is not represented.
- PHP's loose `==` and `in_array` are modelled only where a finding depends on them (the status whitelist and field check of update_meta.php, the action switch of update_exhibits.php). Elsewhere comparisons are strict, and `sort`/`usort` compare strings byte by byte, without PHP's numeric-string ordering.
- Export.Sanitize: works on characters, while PHP's `preg_replace` without the `u` flag works on bytes, so a multi-byte character becomes one `_` here and several in PHP.
- Common.ToLower: maps ASCII letters only. This matches PHP's `strtolower`, but JavaScript's `toLowerCase` in settings.php and assets/js/upload.js also lowers non-ASCII letters.
- Settings.IntOfText: reads an optional sign and leading digits. PHP 8's `intval("1e3")` is 1000, and the model reads 1.
- CheckUpdate.AssetsOf: only a JSON list under `assets` is scanned. A JSON object there, which PHP's `is_array` also accepts, is treated as having no assets.
- Exhibits.TrimmedInput: reads a non-string input value as "". PHP's `trim` turns an integer or boolean into its text, and an array raises a TypeError.
- Setup.ReadForm: reads non-string JSON values as "" through `Exhibits.TrimmedInput`. PHP's `trim` turns an integer or boolean into its text, and an array raises a TypeError.
- MetaUpdate.TagsValue: a JSON object under `value` is stored as no tags. PHP's `is_array` accepts the associative array `json_decode(…, true)` makes of it, so PHP stores its cleaned values, in key order. This model's JSON objects are maps without key order, so that order cannot be stated.
- Exhibits.SlugArg: a non-empty list or object under `slug` gives 404 here. In PHP 8, `isset($exhibits[$slug])` with an array offset stops the script with a TypeError.
- Auth.PastExpiry: a string `exp` that is not all digits is compared as text. PHP 8 compares a numeric string such as "9e8", "5.5" or " 42" with `time()` as a number, so such a token can be expired in PHP but not in the model.
- FileStore.FileSystem.Unlink: deleting a file never fails. delete.php:62 and delete.php:73 record a file only when `unlink` returns true, so DeleteArtwork.DeletedNamesRemoved ("reported exactly when it was a file") holds only under this assumption.
- FileStore.FileSystem.RemoveTree: every `unlink` and `rmdir` of a recursive removal succeeds. delete.php:112-126 ignores a failed `unlink` and returns the result of the final `rmdir`; the copies at api/apply_update.php:204-211 and settings.php:185-192 ignore both. A refused deletion can therefore leave part of the tree behind.
- Setup.Include: reads only the two file shapes the site writes: the wizard's header with its date stamp, and the header of the profile rewrite. A configuration written by hand, for example a copy of artist_config.sample.php with its own header and comments inside the array, yields no value here, so Setup.Installation.Gate keeps the wizard open, where `@include` at setup.php:24-29 returns the array and redirects to `/`.
- ApplyUpdate.InstalledVersion: version.php is not part of this model. The reply's `new_version` is the `version` field of the array version.php returns (api/apply_update.php:231-235); the model reports the whole text of that file in its place.
- ReceiveArtwork.CheckBase: a list or object under `filename_base` is refused with 400 "Invalid filename". In PHP, `preg_replace` at api/receive_artwork.php:69 returns an array, which `empty` lets through. The request then stops with a TypeError in `strpos` at line 116 once an upload passes the type checks, and otherwise answers 400 "No valid images received". The counter and uploads/ end the same either way; only the reply differs.
- The page reload that assets/js/upload.js:134-137 schedules 1.5 seconds after a successful upload is not modelled: after UploadScript.ProgressPanel.Settle the model keeps the settled progress items and does not reload the page.
- The results of `file_put_contents` at delete.php:92 and api/receive_artwork.php:58 and 175 are ignored by the source. The model always applies those writes: the metadata entry is dropped in DeleteArtwork.Delete, and the rate counter and artwork_meta.json are updated in ReceiveArtwork.Intake. A failed write there, which would leave the old file, is not modelled.
- MetaUpdate.FileArg: a non-string filename is refused with 400, where PHP would coerce a number to text and stop on an array.
- MetaUpdate.Strings: the non-string items of a tag array are dropped, where PHP coerces numbers to text before sanitising.
- Gallery.TagStrings: keeps only the string items of a tag array and reads any other tag value as no tags. index.php:68-83 keeps every item, and a string `tags` value stops the page in `implode`/`in_array`.
- UpdateProfile.ProfileKeysExactly: states that the rewrite keeps only seven keys, so it drops `auth_signing_secret`, `oauth`, `site_domain` and the rest. This is what update_profile.php:86-94 does; it is not claimed as a finding.
- upload.php (resizing, EXIF GPS in floating point, the hub sync) is not part of this model. Only its DZI threshold is used, in `DziGenerator.ShouldGenerateDzi`.
- In assets/js/upload.js, the global `deleteArtwork` and `updateStatus` helpers, the lightbox, and the editable title and tag fields (lines 154-311) are DOM wiring around delete.php and update_meta.php, which are modelled themselves. They are not modelled.
- The hub sync calls of update_exhibits.php and the central-network calls of setup.php, settings.php and auth.php are replaced by their replies, given as inputs.

## Findings

| source | as written | input that shows it | evidently intended | confidence | as-written member | corrected member |
|---|---|---|---|---|---|---|
| api/apply_update.php:11 | the guard tests `$_SESSION['authenticated']`, but auth.php:211 sets only `artist_authenticated` | a session signed in through auth.php requesting an update with a download URL: 403, nothing installed | admit the artist auth.php signed in | not executed | ApplyUpdate.SignedInRefused | ApplyUpdate.SignedInAdmitted |
| api/rollback_update.php:10 | the same guard on the rollback | a signed-in session with one backup archive: 403, nothing restored | admit the artist auth.php signed in | not executed | RollbackUpdate.RollbackRefusesSignedIn | RollbackUpdate.RollbackAdmitsSignedIn |
| update_meta.php:68 | loose `in_array` on the status whitelist | `{"filename":"a.jpg","field":"status","value":true}`: `true` is stored as the status | only available, sold or other are stored | not executed | MetaUpdate.TrueStatusGoesThrough | MetaUpdate.StoredStatusIsName |
| settings.php:836 | the second pattern `/^[a-z][a-z0-9]?$/` accepts one letter | typing `a`: the request for subdomain `a` is sent | at least two characters, as the error text and `minlength="2"` say | not executed | Settings.OneLetterSent | Settings.CreateRequestSendsIntended |
| setup.php:366 | `",\n"` is appended after the implode even when there are no lines | an empty array prints `[\n,\n]`, which is not a PHP array literal | print `[\n]` for an empty array | not executed | PhpExport.EmptyArrayUnreadable | PhpExport.EmptyArrayRoundTrip |
| exhibit.php:471-476 | the badge class uses `strtotime` without checking that it read the date | a started exhibit with end date `soon` shows `Since …` in a badge styled `closed` | the class of the badge that is shown | not executed | ExhibitPage.SinceBadgeStyledClosed | ExhibitPage.BadgeClassAgrees |
| index.php:388-390 | `strtotime($end) < $now` is true when the date does not parse | a published exhibit with end date `soon` is listed as current but its card says `Closed` | the card's badge follows the exhibit's group | not executed | Gallery.UnreadableEndClosesCard | Gallery.CardBadgeMatchesBucket |
| art.php:114-116 | `array_search` returns false for a file not in the list, and `false < count - 1` holds | `c.JPG` beside `a.jpg` and `b.jpg`: the page for `c.JPG` offers `b.jpg` as next | no neighbours for a file outside the list | not executed | ArtPage.UnlistedFileGetsNext | ArtPage.NeighboursOf |
