# Sports cards catalog: a Dafny model

This project models the core of a sports-card catalog: a FastAPI server over
an SQLite database, a command-line import script for published card lists,
and two pages of the desktop client. It then proves properties of the model.

- **Server.** The server keeps three tables: cards, ownership records (a
  user's copies of a card) and media (photos of a card or of a copy). Each
  table is modelled as a map from primary key to row, together with the order
  in which rows were inserted. That order is the order a table scan returns.
  The routers are modelled as methods on a `Database` object:
  - the card endpoints (canonical key, search, paging, lookup, create,
    partial update, soft delete);
  - the ownership endpoints;
  - the media endpoints (upload validation, retiring older photos of the same
    side, newest photo per side, listing);
  - CSV import and export of cards;
  - the settings read from the environment.

  A database invariant (`Store.DbValid`) states several things:
  - every row is stored under its own key in tenant "local";
  - the UNIQUE (tenant_id, canonical_key) constraint holds;
  - every reference resolves.

  Every state-changing endpoint preserves it.
- **Import script.** The script's string normalisers (brand, year, optional
  text, five-part canonical key) are functions. These parts are methods over
  an `ImportRun` object:
  - the per-release de-duplication loop;
  - the upsert through a canonical-key cache;
  - the run loop, with its cross-file "seen" set, counters and commit batches;
  - the directory walk that lists the release files.
- **Client.** The card page and the wishlist page are classes whose fields are
  the component state. Server answers come in as method parameters.

## Model

| member | source | states |
|---|---|---|
| Models.WithText | server/routers/cards.py:67-68 | setattr on one text column: that column takes the value, every other text column, the year, the id, the tenant, the timestamps and the key keep theirs |
| Models.NewCard | server/models.py:12-34 | a card built from the column defaults: tenant "local", schema "v1", created_at = updated_at = the clock, not deleted, every nullable column NULL |
| Models.NewOwnership | server/models.py:42-61 | an ownership row from the defaults: tenant "local", schema "v1", quantity 1, currency "USD", live, created_at = updated_at |
| Models.NewMedia | server/models.py:89-105 | a media row from the defaults: tenant "local", schema "v1", live, no card, no ownership record, no kind |
| Models.PutKeepsUnique | server/models.py:36-38 | giving a card a canonical key that no other card of its tenant holds keeps UNIQUE (tenant_id, canonical_key); NULL keys never collide |
| Store.Table.Insert | server/routers/cards.py:60 | an INSERT under a new key keeps every key exactly once in scan order, stores the row and appends its key last |
| Store.Table.Put | server/routers/cards.py:72 | an UPDATE of a stored key keeps the scan order; the scan shows the new row at that key's position and every other row unchanged |
| Store.InsertValues | server/routers/cards.py:60 | a scan after an INSERT returns the old rows and then the new row |
| Store.InValues | server/routers/cards.py:29 | a row is returned by a table scan exactly when some key stores it |
| Store.InsertAll | server/routers/import_csv.py:40-43 | committing a batch of new rows keeps the table well formed, and no key appears that is neither old nor a key of the batch |
| Store.FreshKeysSpec | server/routers/import_csv.py:40-43 | a batch can be committed exactly when no key of the batch is already taken and the batch's keys are pairwise distinct |
| Store.InsertAllOrder | server/routers/import_csv.py:40-43 | after the commit the scan order is the old order followed by the batch's keys in row order |
| Store.InsertAllCovers | server/routers/import_csv.py:40-43 | after the commit a key is stored exactly when it was stored before or is a key of the batch |
| Store.InsertAllRows | server/routers/import_csv.py:40-43 | the commit leaves every old row unchanged and stores each row of the batch under its own key |
| Store.InsertAllSnoc | server/routers/import_csv.py:40 | adding one more row to the session is one more INSERT after the batch so far |
| CardsRouter.CanonRoundTrip | server/routers/cards.py:17-20 | the canonical key splits on "\|" into exactly seven parts (year, brand, set_name, subset, card_no, parallel, variant), each the stripped, lower-cased column ("" for None), provided no part holds a "\|" |
| CardsRouter.NormTextAbsorbs | server/routers/cards.py:18 | a column's key part ignores letter case and surrounding whitespace |
| CardsRouter.ListCards | server/routers/cards.py:22-38 | a listing page never holds more than limit rows |
| CardsRouter.ListCardsSound | server/routers/cards.py:29-38 | every listed card is a stored live card; with a non-empty q it matches q case-insensitively in player, brand, set_name or card_no; the page is in descending updated_at order |
| CardsRouter.EmptyQueryIsNoQuery | server/routers/cards.py:30 | an empty q gives the same listing as no q |
| CardsRouter.DefaultListing | server/routers/cards.py:26-38 | a request without limit and offset (limit 100, offset 0) lists at most 100 cards, none updated before a live match it leaves out, and every live match when fewer than 100 are listed |
| CardsRouter.ListCardsComplete | server/routers/cards.py:29-38 | with offset 0 and room for every row, every live matching card is listed |
| CardsRouter.GetCard | server/routers/cards.py:40-45 | the card is returned exactly when it exists and is live; otherwise 404 "Card not found" |
| CardsRouter.FromPayload | server/routers/cards.py:49-59 | the created row has the given id, tenant "local", schema "v1", created_at = updated_at = now, the payload's twelve columns, and the canon of the payload as its key |
| CardsRouter.InsertCardKeepsValid | server/routers/cards.py:58-60 | a new card whose key no other card of the tenant holds can be inserted without breaking the database invariant |
| CardsRouter.CreateCard | server/routers/cards.py:47-61 | POST inserts the new "c_" card when the commit can succeed; a taken id or a duplicate canonical key fails the commit (IntegrityError) and changes nothing; other tables are untouched and the invariant holds |
| CardsRouter.Patched | server/routers/cards.py:67-68 | the setattr loop never changes the id, tenant, schema, timestamps, deletion mark or key |
| CardsRouter.PatchedColumns | server/routers/cards.py:67-68 | after the loop, each column the payload sets holds the payload's last value for it; every other column keeps its old value |
| CardsRouter.UpdateCard | server/routers/cards.py:63-73 | PATCH answers 404 for a missing or deleted card; otherwise it stores the patched, re-stamped, re-keyed row (IntegrityError with no change when the new key clashes); the invariant holds |
| CardsRouter.RestampKeepsText | server/routers/cards.py:69-71 | re-stamping updated_at and re-keying leave the text columns alone |
| CardsRouter.UpdatedSpec | server/routers/cards.py:67-71 | the update changes exactly the columns the payload names, sets updated_at to now, and keeps created_at, deleted_at and the id |
| CardsRouter.UpdatedKey | server/routers/cards.py:70-71 | the stored key is the canon of the columns after the update |
| CardsRouter.DeleteCard | server/routers/cards.py:75-81 | DELETE answers 404 for a missing or deleted card; otherwise it keeps the row and only sets its deleted_at |
| CardsRouter.DeleteHidesCard | server/routers/cards.py:77-81 | after a delete the card answers 404, no listing shows it, and every other row is unchanged |
| CardsRouter.LiveCardNotDeleted | server/routers/cards.py:79 | a live row found after the delete is not the deleted card |
| OwnershipRouter.ListOwnershipSpec | server/routers/ownership.py:14-19 | the listing holds exactly the live records, of the named card when one is given, each as often as the scan holds it, newest update first |
| OwnershipRouter.FromPayload | server/routers/ownership.py:25-30 | the created record has the given id, tenant "local", schema "v1", created_at = updated_at = now, and every payload column copied unchanged |
| OwnershipRouter.CreateOwnership | server/routers/ownership.py:21-32 | 400 unless some card row has the payload's card_uuid (deleted cards count); a taken id fails the commit; otherwise the record is inserted; the invariant holds |
| OwnershipRouter.LiveOwnership | server/routers/ownership.py:36-38 | the record is found exactly when it exists and is live; otherwise 404 "Ownership not found" |
| OwnershipRouter.DeleteOwnership | server/routers/ownership.py:34-41 | DELETE answers 404 for a missing or deleted record; otherwise it only sets deleted_at |
| OwnershipRouter.DeleteHidesOwnership | server/routers/ownership.py:36-40 | after a delete the record answers 404, no listing shows it, and every other record is unchanged |
| MediaRouter.PublicUrl | server/routers/media.py:28-29 | "/media/" + path for a non-empty path, None otherwise |
| MediaRouter.ThumbUrlFallback | server/routers/media.py:167 | the thumbnail URL uses the thumbnail when there is one, else the photo's own path |
| MediaRouter.RFind | server/routers/media.py:81 | the last position holding the character, or -1 when there is none |
| MediaRouter.SplitExt | server/routers/media.py:81 | the extension is empty or a final suffix of the name that starts with "." and holds no other dot or slash |
| MediaRouter.Ext | server/routers/media.py:81 | the upload's extension is never empty |
| MediaRouter.ExtExamples | server/routers/media.py:81 | "front.JPG" has extension ".jpg" (lower-cased) |
| MediaRouter.ExtLastDotExample | server/routers/media.py:81 | "scans/card.v2.png" has extension ".png": the last dot of the last component counts |
| MediaRouter.ExtDefaultExamples | server/routers/media.py:81 | ".webp", "dir.d/photo" and a missing name all get ".jpg": a leading dot or a dot in a directory starts no extension |
| MediaRouter.KindNorm | server/routers/media.py:71-76 | an absent or empty kind means none; a given kind is accepted exactly when stripped and lower-cased it is "front" or "back", and is then stored in that form |
| MediaRouter.KindNormExamples | server/routers/media.py:72-76 | " Front " becomes "front", "BACK" becomes "back", "side" is refused, "" is none |
| MediaRouter.ValidateUploadSpec | server/routers/media.py:63-87 | an upload is accepted exactly when it names a target, every named target exists, the kind and extension are allowed and the file has at most 15 MiB; a refusal is 413 exactly when only the size check fails, and 400 otherwise; an accepted upload carries the normalised kind and the extension |
| MediaRouter.RetireAllKeepsValid | server/routers/media.py:110-134 | retiring priors changes only deleted_at, so the database invariant survives |
| MediaRouter.RetireRows | server/routers/media.py:121-122 | the loop over the priors gives every row its retired form and keeps the same keys |
| MediaRouter.RetirePriors | server/routers/media.py:110-134 | the query and the loop leave the media table retired as specified, and the other tables untouched |
| MediaRouter.UploadedRow | server/routers/media.py:97-151 | the new row has the given id, path id + extension, the form's card, ownership record and normalised kind, the size as text, the SHA-256, tenant "local", schema "v1", created_at = updated_at = now, and width and height as the text of PIL's size, "0" when the image cannot be read |
| MediaRouter.UploadMedia | server/routers/media.py:55-168 | a refused upload answers its error and changes nothing; a taken id fails the commit with no change; otherwise priors are retired, the row is added, and url and thumb_url are both "/media/" + path |
| MediaRouter.UploadReplaces | server/routers/media.py:110-160 | after a kinded upload for a card (or, without a card, for an ownership record) the new row is the only live media of that target and side; non-prior rows are unchanged |
| MediaRouter.UnkindedUploadKeepsAll | server/routers/media.py:110 | an upload without kind retires nothing |
| MediaRouter.NewestSpec | server/routers/media.py:180-185 | the first row by descending created_at is one of the rows and created no earlier than any other; there is none only when there are no rows |
| MediaRouter.LatestBySpec | server/routers/media.py:203-222 | each side of the pair is the newest live media of that card with exactly that kind, or None when there is none |
| MediaRouter.PairForCardSpec | server/routers/media.py:198-227 | the pair's front is the newest live front photo of the card and its back the newest live back photo, each None exactly when there is none |
| MediaRouter.LatestForCardSpec | server/routers/media.py:171-196 | latest returns a live photo of the card (of the stripped, lower-cased kind when one is given), created no earlier than any other such photo, or the empty answer when there is none; the answer carries exactly that photo's id, kind, URL, thumbnail URL and created_at |
| MediaRouter.ListedMediaSpec | server/routers/media.py:236-244 | the listing holds exactly the live media that match every non-empty filter, newest first |
| MediaRouter.ListMedia | server/routers/media.py:244-259 | one item per listed row, in the same order, carrying the row's ids, kind and created_at, with url = thumb_url = "/media/" + path |
| ImportCsv.OrNone | server/routers/import_csv.py:28 | `v or None`: None exactly for a missing or empty cell, otherwise the cell verbatim |
| ImportCsv.DigitCell | server/routers/import_csv.py:27 | a cell that is not all digits once stripped gives None; one with digits int() cannot read (superscripts) raises; otherwise the number |
| ImportCsv.BuildRow | server/routers/import_csv.py:23-39 | the row's card: the given id, tenant "local", live, created_at = updated_at = now, no key, the parsed year, print_run as digits |
| ImportCsv.BuildRowText | server/routers/import_csv.py:28-38 | every text column but print_run holds its cell's `or None` value |
| ImportCsv.RowCard | server/routers/import_csv.py:22-42 | a row that builds gives a live card with the given id, no key, tenant "local" and created_at = updated_at = now |
| ImportCsv.RowCardColumns | server/routers/import_csv.py:23-39 | text cells are stored verbatim, an empty or missing one as None; year and print_run hold the cell's number exactly when the stripped cell is all digits |
| ImportCsv.CreatedCards | server/routers/import_csv.py:21-42 | the accepted rows give at most one card each |
| ImportCsv.CreatedCardsShape | server/routers/import_csv.py:23-26 | every imported card has a "c_" id, is live in tenant "local", has created_at = updated_at = now and no key |
| ImportCsv.InsertAllKeepsValid | server/routers/import_csv.py:40-43 | committing imported cards under fresh ids keeps the database invariant |
| ImportCsv.StageRows | server/routers/import_csv.py:20-42 | the row loop counts every row as created or error (created + errors = rows), created is the number of built cards, and the session holds exactly the table the commit writes unless the ids clash |
| ImportCsv.StageCard | server/routers/import_csv.py:40 | after db.add of one more card the session clashes exactly when some pending id is already taken or repeats another, and otherwise equals the commit of all pending cards |
| ImportCsv.StageRow | server/routers/import_csv.py:22-42 | one pass of the row loop appends the row's card when it builds, counts it as created exactly then, and keeps the session equal to the commit of the cards so far |
| ImportCsv.ImportCards | server/routers/import_csv.py:13-44 | a missing or non-".csv" name is refused with 400 and no change; a clashing id fails the commit with no change; otherwise every built card is committed and the counts are returned |
| ImportCsv.CreatedStep | server/routers/import_csv.py:21-42 | one more row appends its card, when it builds one, and otherwise changes nothing |
| ImportCsv.DigitCellExamples | server/routers/import_csv.py:27 | "1990" gives 1990, a superscript two raises, a missing cell gives None |
| ImportCsv.CountThree | server/routers/import_csv.py:40-42 | two rows that build and one that raises give two cards |
| ImportCsv.RowExamples | server/routers/import_csv.py:27-38 | a row with a year and a player builds, a superscript year raises, an empty brand cell still builds |
| ImportCsv.ThreeRowExample | server/routers/import_csv.py:20-44 | a file of three rows whose second year is a superscript two creates two cards and counts one error |
| Export.RowOf | server/routers/export.py:20-21 | a data line has as many cells as the header |
| Export.ExportAligned | server/routers/export.py:17-21 | a data line has 16 cells, and each is the value of the card column its header names |
| Export.HeaderDistinct | server/routers/export.py:17-18 | the header names 16 distinct card columns |
| Export.ValuesDistinct | server/routers/export.py:14 | a scan of the card table repeats no card |
| Export.SelectedSpec | server/routers/export.py:14 | the export holds each live card exactly once, no deleted card, in ascending created_at order |
| Export.HeaderLine | server/routers/export.py:17-18 | the header line is the 16 column names, in order |
| Export.ExportCards | server/routers/export.py:13-21 | the writer emits the header line, then one data line per selected card, in order |
| Settings.Get | server/settings.py:12-13 | a set variable wins, even when empty; otherwise the default |
| Settings.KeepEntries | server/settings.py:17 | the comprehension keeps at most as many entries as there are pieces |
| Settings.CsvEntries | server/settings.py:17 | no entry is empty, padded with whitespace or holds a comma |
| Settings.CsvJoin | server/settings.py:17 | a list of entries written out with commas reads back as the same list, so entries keep their order |
| Settings.CsvCons | server/settings.py:17 | the first comma-separated field's entries come before those of the rest |
| Settings.DevOriginsJoined | server/settings.py:27 | the default value is the three origins joined with commas |
| Settings.DefaultCorsOrigins | server/settings.py:25-28 | the default CORS value yields exactly http://localhost:5173, http://127.0.0.1:5173 and tauri://localhost |
| Settings.ParseInt | server/settings.py:23 | a parsed port comes from a non-blank value |
| Settings.ParseIntToString | server/settings.py:23 | int() reads back the decimal text of every integer |
| Settings.PortDefault | server/settings.py:23 | the default "8787" reads as 8787 |
| Settings.LoadSettings | server/settings.py:19-29 | the settings load exactly when BIND_PORT reads as an integer; they then hold that port, APP_ENV, DB_PATH and BIND_HOST or their defaults, and CORS_ORIGINS or its default parsed as a comma list |
| Settings.DefaultSettings | server/settings.py:19-29 | with nothing set: env "local", database ./data/catalog.sqlite, 127.0.0.1:8787, the three development origins |
| CatalogNorm.SportSuffixLen | scripts/import_cardlists.py:36 | the matched sport word is shorter than the text, or no word matched |
| CatalogNorm.ParseBrandSpec | scripts/import_cardlists.py:30-42 | the brand has no surrounding whitespace and is empty exactly when the title is missing or blank |
| CatalogNorm.CollapseNoop | scripts/import_cardlists.py:39 | text whose only whitespace is single spaces is left as it is by the whitespace collapse |
| CatalogNorm.DropYearPrefixShort | scripts/import_cardlists.py:33 | a leading "dddd " is removed |
| CatalogNorm.DropYearPrefixSeason | scripts/import_cardlists.py:33 | a leading "dddd-dd " is removed |
| CatalogNorm.DropSportSuffixWord | scripts/import_cardlists.py:36 | a final sport word after a space is removed with the space |
| CatalogNorm.SpacedBrand | scripts/import_cardlists.py:39 | collapsing and stripping leave a single-spaced, stripped brand as it is |
| CatalogNorm.BrandFromParts | scripts/import_cardlists.py:30-42 | the brand is what the year and sport removals leave, when that is stripped and single-spaced |
| CatalogNorm.DonrussSuffix | scripts/import_cardlists.py:36 | "Donruss Baseball" ends in the 8-letter word "baseball" |
| CatalogNorm.UpperDeckSuffix | scripts/import_cardlists.py:36 | "Upper Deck Hockey" ends in the 6-letter word "hockey" |
| CatalogNorm.ChromeSuffix | scripts/import_cardlists.py:36 | "Topps Chrome Baseball" ends in the 8-letter word "baseball" |
| CatalogNorm.ChromeNoYear | scripts/import_cardlists.py:33 | a title without a leading year keeps its start |
| CatalogNorm.ParseBrandDonruss | scripts/import_cardlists.py:22-28 | "1981 Donruss Baseball" gives "Donruss" |
| CatalogNorm.ParseBrandUpperDeck | scripts/import_cardlists.py:22-28 | "1990-91 Upper Deck Hockey" gives "Upper Deck" |
| CatalogNorm.ParseBrandChrome | scripts/import_cardlists.py:22-28 | "Topps Chrome Baseball" gives "Topps Chrome" |
| CatalogNorm.EnsureStr | scripts/import_cardlists.py:44-48 | ensure_str never yields "" |
| CatalogNorm.EnsureStrSpec | scripts/import_cardlists.py:44-48 | None exactly for None or all-whitespace input, otherwise the stripped text; applying it twice changes nothing |
| CatalogNorm.FirstYearFrom | scripts/import_cardlists.py:51 | the search finds the leftmost 19dd or 20dd run at or after the position, or reports that there is none |
| CatalogNorm.FindYearFromPath | scripts/import_cardlists.py:50-52 | a found year lies in 1900..2099 |
| CatalogNorm.FindYearSpec | scripts/import_cardlists.py:50-52 | the year is present exactly when the path holds a 19dd or 20dd run; it is the leftmost such run read as a number; backslashes do not matter |
| CatalogNorm.BuildCanonicalInjective | scripts/import_cardlists.py:54-62 | two rows get the same key exactly when their five normalised parts agree (parts holding "\|" aside) |
| CatalogNorm.BuildCanonicalIgnoresCase | scripts/import_cardlists.py:54-62 | letter case and surrounding whitespace of brand, set_name, card_no and player do not reach the key: lower-casing, stripping or both leave it as it is |
| CatalogFiles.PathJoin | scripts/import_cardlists.py:163 | a joined path ends in its last part |
| CatalogFiles.DirFiles | scripts/import_cardlists.py:170-172 | the file loop lists the ".json" names of one walked directory, joined to it, in order |
| CatalogFiles.WalkFiles | scripts/import_cardlists.py:166-172 | the walk loop lists the files of every directory in walk order, skipping category directories unless they are included |
| CatalogFiles.ListReleaseFiles | scripts/import_cardlists.py:154-173 | the sport loop lists the files of every wanted, existing sport directory in SPORT_DIRS order |
| CatalogFiles.JoinedJson | scripts/import_cardlists.py:171-172 | a ".json" name stays one when joined to its directory |
| CatalogFiles.EntryHitsSound | scripts/import_cardlists.py:166-172 | the files of one walk step are ".json" files paired with the sport |
| CatalogFiles.SportHitsSound | scripts/import_cardlists.py:160-172 | the files of one sport directory are ".json" files with its sport name, and only a wanted, existing directory has any |
| CatalogFiles.ListedSound | scripts/import_cardlists.py:154-173 | every listed file is a ".json" file paired with a sport that passes the filter and whose directory exists |
| CatalogFiles.ListedComplete | scripts/import_cardlists.py:154-173 | every ".json" file of a walked, non-skipped directory of a wanted sport is listed with that sport's name |
| CatalogImport.CardRow | scripts/import_cardlists.py:79-97 | a yielded row holds the sport, the path's year, the parsed brand, the release name as set name, and the cleaned subset, number and name; print_run is the integer numberedTo |
| CatalogImport.SetRows | scripts/import_cardlists.py:78-97 | one row per card of a set, in card order |
| CatalogImport.ImportRelease | scripts/import_cardlists.py:64-104 | import_release's nested loop yields the rows of the file de-duplicated by canonical key |
| CatalogImport.ImportReleaseSpec | scripts/import_cardlists.py:73-104 | the yielded rows have pairwise distinct keys; each is the first card of its key in set and card order; they keep that order and every key is kept |
| CatalogImport.FindByKey | scripts/import_cardlists.py:116 | the query finds a stored card of tenant "local" with the key, or none exists from that scan position on |
| CatalogImport.LookupSpec | scripts/import_cardlists.py:114-116 | a row is found exactly when the cache or the table holds one with the key, and a found row has the key |
| CatalogImport.FilledSpec | scripts/import_cardlists.py:136-151 | the eight assignments put the row's values in place and bump updated_at, touching neither the id, the tenant, the key nor created_at |
| CatalogImport.InsertNewKeeps | scripts/import_cardlists.py:119-132 | inserting the new card for an unseen key keeps the table's constraints and lets the cache point at it |
| CatalogImport.PutFoundKeeps | scripts/import_cardlists.py:133-151 | overwriting the found card keeps its key and so the constraints and the cache |
| CatalogImport.UpsertKeeps | scripts/import_cardlists.py:110-152 | upsert_card keeps the table valid and unique, the cache pointing into it, and the card for the key holding the row's values; no key but the new id appears |
| CatalogImport.UpsertConsistent | scripts/import_cardlists.py:110-152 | the table and cache after upsert_card are consistent and only the new id can appear |
| CatalogImport.UpsertSpec | scripts/import_cardlists.py:110-152 | "created" exactly when neither the cache nor the table had a card with the key; afterwards the cache maps the key to a stored card holding the row's values |
| CatalogImport.ImportRun.constructor | scripts/import_cardlists.py:211-217 | a run starts with the stored table, an empty cache and seen set, and zero counters |
| CatalogImport.ImportRun.Upsert | scripts/import_cardlists.py:110-152 | the table, cache and status after upsert_card are the specified ones, and the run stays consistent |
| CatalogImport.ImportRun.Process | scripts/import_cardlists.py:221-229 | a row whose key was already seen in the run changes nothing but the rows fed; otherwise it is upserted and counted |
| CatalogImport.ImportRun.Fresh | scripts/import_cardlists.py:225-234 | a row with an unseen key is marked seen, upserted, counted, and the batch is committed once it reaches commit_every |
| CatalogImport.ImportRun.Count | scripts/import_cardlists.py:225-234 | one created or updated more, created + updated equal to the distinct keys fed, and the batch below commit_every after a commit |
| CatalogImport.ImportRun.Feed | scripts/import_cardlists.py:221-234 | the inner loop feeds every row of a file and keeps the run's invariant |
| CatalogImport.ImportRun.Finish | scripts/import_cardlists.py:235-236 | the final commit saves the session unless the run is a dry run |
| CatalogImport.RunImport | scripts/import_cardlists.py:211-236 | after every file: created + updated is the number of distinct keys over all files, the seen set is exactly those keys, a dry run commits nothing and otherwise everything is committed |
| CardsUi.LoadParams | app/ui/src/pages/Cards.tsx:58-59 | load sends the page and page size 50, and q exactly when the committed query is not empty |
| CardsUi.ResponseShapes | app/ui/src/pages/Cards.tsx:63-69 | a bare array and an envelope carry the same rows; only the envelope carries a count; an envelope without items shows no rows |
| CardsUi.ToAbs | app/ui/src/pages/Cards.tsx:81 | a present path is prefixed with the API base; a missing or empty one gives "" |
| CardsUi.MediaOfSpec | app/ui/src/pages/Cards.tsx:75-91 | the media map has an entry for exactly the listed cards, each the pair fetched for that card (empty when the request failed) |
| CardsUi.UploadSpec | app/ui/src/pages/Cards.tsx:175-183 | an upload changes only the uploaded side of the uploaded card; the thumbnail falls back to the full image |
| CardsUi.TotalPages | app/ui/src/pages/Cards.tsx:336-339 | unknown without a count; otherwise at least one page, enough pages for the count and no spare page |
| CardsUi.PrevPage | app/ui/src/pages/Cards.tsx:538 | Prev goes one page back but never below 1 |
| CardsUi.PagingStaysInRange | app/ui/src/pages/Cards.tsx:538-546 | Next moves at most one page on and never past the known last page; both buttons keep a page in 1..totalPages inside that range |
| CardsUi.ProductsSpec | app/ui/src/pages/Cards.tsx:133 | every product shown is a non-empty label of the answer, every non-empty label is shown, and there are never more products than entries |
| CardsUi.ProductExamples | app/ui/src/pages/Cards.tsx:133 | strings stay, objects give their label, nulls and empty labels are dropped |
| CardsUi.NewestFirst | app/ui/src/pages/Cards.tsx:120 | the years are sorted newest first and are the same years |
| CardsUi.CardsPage.constructor | app/ui/src/pages/Cards.tsx:30-52 | the page starts on page 1 with nothing loaded, picked or typed |
| CardsUi.CardsPage.Load | app/ui/src/pages/Cards.tsx:55-95 | load sends the page parameters, shows the answer's rows and count and the media of every row; a failed page request keeps rows, count and media; loading ends either way |
| CardsUi.CardsPage.Type | app/ui/src/pages/Cards.tsx:227-230 | typing changes only the search box |
| CardsUi.CardsPage.Submit | app/ui/src/pages/Cards.tsx:207-211 | submit commits the trimmed box text and goes to page 1 |
| CardsUi.CardsPage.Clear | app/ui/src/pages/Cards.tsx:212-219 | clear empties the box and the query, goes to page 1 and drops the product pick; sport and year stay |
| CardsUi.CardsPage.Prev | app/ui/src/pages/Cards.tsx:538 | Prev sets the page to max(1, page - 1) |
| CardsUi.CardsPage.Next | app/ui/src/pages/Cards.tsx:543-546 | Next is disabled once the page reaches the known page count, and a click then changes nothing; otherwise the handler's min(totalPages, page + 1), or page + 1 with no count, is exactly one page on |
| CardsUi.CardsPage.LoadSports | app/ui/src/pages/Cards.tsx:103-111 | the sports list is the answer's list; a failed request leaves it |
| CardsUi.CardsPage.PickSport | app/ui/src/pages/Cards.tsx:114-124 | a sport click toggles the sport; the years become the answer newest first (none when cleared or failed); year, product pick and products are cleared |
| CardsUi.CardsPage.PickYear | app/ui/src/pages/Cards.tsx:127-138 | a year click toggles the year; the products are loaded only with both a sport and a year (none otherwise or on failure); the product pick is cleared |
| CardsUi.CardsPage.PickProduct | app/ui/src/pages/Cards.tsx:141-148 | a non-empty product that is not already picked becomes the box text and the query, and the page goes to 1; an empty product or a re-pick of the current one changes none of them |
| CardsUi.CardsPage.Upload | app/ui/src/pages/Cards.tsx:168-184 | the media map gains the uploaded image on the chosen side of the card; a failed POST leaves the map |
| CardsUi.CardsPage.ToggleWishlist | app/ui/src/pages/Cards.tsx:186-189 | posts the negated flag and, when the POST succeeds, sets it on that card's rows; a failed POST leaves the rows |
| CardsUi.FlaggedSpec | app/ui/src/pages/Cards.tsx:188 | only the flag of the matching rows changes; a second toggle overrides the first; setting a flag the rows already have changes nothing |
| WishlistUi.WithoutSpec | app/ui/src/pages/wishlist.tsx:35 | no row of the card is left, every other row keeps its multiplicity and relative order, no row is added |
| WishlistUi.KeepAll | app/ui/src/pages/wishlist.tsx:35 | a list without the card's rows is left as it is |
| WishlistUi.WishlistPage.constructor | app/ui/src/pages/wishlist.tsx:18-19 | the page starts empty and not loading |
| WishlistUi.WishlistPage.Load | app/ui/src/pages/wishlist.tsx:21-29 | load asks for wishlisted cards with page size 500 and shows the answer wholesale; a failed request keeps the list; loading ends either way |
| WishlistUi.WishlistPage.ToggleWishlist | app/ui/src/pages/wishlist.tsx:33-36 | posts the negated flag and, when the POST succeeds, removes the card's rows from the list; a failed POST keeps them |
| Query.Filter | server/routers/cards.py:29-37 | a WHERE keeps only rows that satisfy it, and no more rows than there were |
| Query.FilterMultiset | server/routers/cards.py:29-37 | a WHERE keeps every satisfying row as often as it occurs and no other row |
| Query.FilterConcat | app/ui/src/pages/wishlist.tsx:35 | filtering keeps left-to-right order: it distributes over concatenation |
| Query.SortDesc | server/routers/cards.py:38 | ORDER BY ... DESC yields a descending permutation of the rows |
| Query.SortAsc | server/routers/export.py:14 | ORDER BY ... ASC yields an ascending permutation of the rows |
| Query.SortedDescHeadIsMax | server/routers/media.py:180-185 | the first row of a descending listing has the greatest key |
| Query.Page | server/routers/cards.py:38 | OFFSET skips that many rows (none for a negative one) and LIMIT keeps at most that many (all for a negative one), in listing order |
| Query.PageOfSorted | server/routers/cards.py:38 | a page holds only rows of the listing and keeps its order |
| Query.FirstPageTop | server/routers/cards.py:38 | a first page of a descending listing leaves out no row ranking above a listed one, and a short page is the whole listing |
| Query.PageAll | server/routers/cards.py:38 | the first page with room for every row is the whole listing |
| Query.SortAscFilterDistinct | server/routers/export.py:14 | neither a WHERE nor an ORDER BY repeats a row |
| Query.DedupSpec | scripts/import_cardlists.py:99-104 | a "seen"-set scan keeps the first row of each key, in the order those rows appear, and loses no key |
| Query.DedupDistinctKeys | scripts/import_cardlists.py:99-104 | no two kept rows share a key |
| Query.DedupKeys | scripts/import_cardlists.py:99-104 | de-duplication loses no key |
| Query.DedupStep | scripts/import_cardlists.py:222-225 | a seen key changes neither the seen set nor the count; an unseen one adds its key and one kept row |
| Query.FlatSpec | scripts/import_cardlists.py:160-172 | an element of the appended results comes from the result for some input |
| Common.Lower | server/routers/cards.py:18 | lower() maps each character on its own and keeps the length |
| Common.TrimLeftSpec | server/routers/cards.py:18 | the left strip removes a whitespace prefix and nothing else |
| Common.TrimRightSpec | server/routers/cards.py:18 | the right strip removes a whitespace suffix and nothing else |
| Common.StripSpec | server/routers/cards.py:18 | strip() leaves no whitespace at either end, removes only whitespace, and gives "" exactly for blank text |
| Common.StripIdempotent | scripts/import_cardlists.py:47 | stripping twice is stripping once |
| Common.StripLower | server/routers/cards.py:18 | stripping and lower-casing commute |
| Common.LowerIdempotent | server/routers/cards.py:18 | lower-casing twice is lower-casing once |
| Common.NormalForm | server/routers/cards.py:18 | the strip-then-lower normal form is a fixpoint |
| Common.ContainsAt | server/routers/cards.py:31-36 | a substring test holds exactly when the text occurs at some position |
| Common.ReplaceChar | scripts/import_cardlists.py:51 | replace() keeps the length and swaps exactly the given character |
| Common.Split | server/settings.py:17 | split() gives at least one part, and no part holds the separator |
| Common.SplitJoin | server/routers/cards.py:19 | splitting a join gives back the parts, when no part holds the separator |
| Common.SplitAppendFree | server/settings.py:17 | a separator-free first field comes out as the first part |
| Common.NatToString | server/routers/media.py:150 | str() of a natural number is decimal digits without a leading zero |
| Common.DigitsValueOfNatToString | server/routers/import_csv.py:37 | int(str(n)) is n |

## Left out

- Pure UI: the JSX markup of both pages, the toolbar, heart, thumbnail and empty-slot components, the preview overlay, and the focus handling through requestAnimationFrame. None of it changes the page state that is modelled, except the `disabled` attribute of the Next button, which `CardsPage.Next` models.
- Cards.tsx `create` and `remove`: form-to-request glue followed by a reload. The native confirm dialog of `remove` is not modelled. The server side of creation and deletion is modelled in `CardsRouter`.
- The CSV import button of the card page and the ownership page (app/ui/src/pages/Ownership.tsx): request glue and a debounce timer.
- CardsUi.CardsPage.Load: the effect that re-runs `load` when q or the page changes is not automatic in the model. A caller calls `Load` after `Submit`, `Clear`, `Prev`, `Next` or `PickProduct`.
- The per-row media requests of `load` run concurrently in the client. The model keeps only the resulting map; a failed request gives an empty pair.
- The client sends page/page_size/wishlisted and calls browse and wishlist endpoints. The server shown answers limit/offset only, and only the cards router is mounted (server/main.py:18). Each side is modelled as written. `CardsRouter.ListCards` takes limit and offset, and the client methods take the server's answers as parameters.
- The server's framework setup (server/main.py, server/__main__.py, server/db.py) and the schema migrations (server/alembic/env.py and the migration): no logic of the routers.
- The Price table is declared in server/models.py but used by no modelled router.
- Models.NewOwnership: price_paid is NUMERIC(12,2). It is modelled as an integer number of cents; the decimal arithmetic is not modelled.
- The ownership create schema is not among the schema classes shown. Its payload is modelled as every client column of an ownership row, copied as given.
- Timestamps are the server's clock readings as comparable integers, not ISO-8601 strings. Every `now()` call of one request reads the same instant, and one instant stands for the whole run of the catalog import script, where each `upsert_card` reads the clock anew (scripts/import_cardlists.py:124-125, 151).
- uuid4 values, the SHA-256 of an upload and PIL's image size are inputs. Uniqueness of uuids is a precondition of the import methods.
- File system and images: writing the upload, EXIF rotation, thumbnail generation and `_ensure_dirs`. The thumbnail path would be discarded anyway, because the media table has no thumbnail_path column. So every answer's thumb_url is the photo's own URL.
- Paths follow POSIX rules: `PathJoin` and `SplitExt` are posixpath's `join` and `splitext`. On Windows, which the script's backslash-to-slash conversions (scripts/import_cardlists.py:51, 167) allow for, `ntpath` treats drive letters and backslashes differently; that is not modelled.
- Library parsing: `json.load` (release files are a datatype), `csv.DictReader` (rows are maps from header name to cell text), `csv.writer` quoting (lines are sequences of cells), UTF-8 decoding with errors ignored, `os.walk` (a given map from directory to walk entries), and `glob` and `argparse`. The `--release` and `--glob` ways of naming files are left out with argparse; the model starts from the list of files.
- Progress printing and `--verbose` in `main`.
- Regular expressions and string methods are read over ASCII:
  - `\s`, `\d` and `isspace` follow Python's ASCII classes;
  - `isdigit` also accepts the Latin-1 superscript digits, which `int()` cannot read;
  - case-insensitive matching and `lower()` fold ASCII letters only;
  - the client's `trim()` is modelled as the same ASCII strip. That strip also removes U+001C to U+001F, which Python's `str.strip` drops and JavaScript's `trim()` keeps, and it keeps the non-ASCII spaces that `trim()` removes.
- SQL `ilike`: q is matched as a plain substring. The wildcards `%` and `_` inside q are not modelled.
- `int()` also accepts underscores between digits and non-ASCII digits. ParseInt accepts only an optional sign and ASCII digits.
- A JSON boolean numberedTo is an `int` in Python and would reach print_run. The model takes numberedTo as an optional integer.
- CatalogImport.ImportRun.Upsert: the columns external_source, external_id, attributes_json, variations_json and parallels_json do not exist on the card table, so `safe_set` leaves them alone. The model does not store them.
- Concurrency between requests and transactions: every request runs alone against the database.
- Reading a .env file with load_dotenv: the environment is a given map.
- Settings.LoadSettings: an unreadable BIND_PORT raises at import time and stops the server. The model answers None.
