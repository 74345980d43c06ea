# Bilingual site and admin panel: a Dafny model of its logic

The site is a bilingual (Arabic/English) marketing site for a home-decor contractor,
with a password-gated admin panel. Almost all of it is markup. This project models the
few places where the code computes or changes state:

- **Language context** (`language.dfy`, module `Language`). The active language code
  starts at `"ar"`. `toggleLanguage` maps `"ar"` to `"en"` and every other code to
  `"ar"`. An effect writes the code to the document's `lang` attribute, and `"rtl"` or
  `"ltr"` to its `dir` attribute. The provider is a class whose predicate `Synced`
  holds after every change.
- **Blog listing** (`blogs.dfy`, module `Blogs`). `FilterBlogs` is the client-side
  filter. It first applies the case-insensitive title search, then the category
  filter, and each runs only when it is active. The module also holds the dictionary
  fallback `dict[lang] || dict["ar"]` and the card's fallback from English text to
  Arabic text.
- **Contact form** (`contact.dfy`, module `Contact`). `handleSubmit` sets
  `isSubmitting`, clears the status, sends one row (an empty email becomes null),
  then sets the status and clears or keeps the form.
- **Admin dashboard** (`admin.dfy`, module `Admin`). The dashboard is a class. Its
  `requests` field is the ordered log of what it sends to the backend: password
  lookups, refetches, uploads, inserts, storage removals and row deletions. It covers
  login and logout, the tab-to-table and tab-to-folder rules, the image upload loop,
  adding an item, and deleting one. Deletion derives storage paths from the item's
  public URLs.
- Shared helpers: `Seqs` holds `Array.prototype.filter` and the subsequence relation.
  `Text` holds ASCII `toLowerCase`, `indexOf`/`includes`, and `split`/`join` with a
  non-empty separator. `Wrappers` holds `Option`, which stands for null or absent
  columns.

The backend's answers are parameters of the methods that use them:

| parameter | what it stands for |
|---|---|
| `LoginAnswer` | the `app_pass` lookup returned a row, returned no row, or threw |
| `inserted` | the insert succeeded or failed |
| `deleted` | the row deletion succeeded or failed |
| `FileOutcome` | per selected file, one of: compression threw; or the file was named `<stamp>.webp` and its upload failed; or it was named and stored |

Two browser inputs are also parameters:

- `confirmed` is what `confirm` returned.
- `sessionFlag` says whether `sessionStorage` marks the tab as admin.

`getPublicUrl(path)` is modelled as `base + path`. Here `base` is a parameter: the
storage client's public prefix for the bucket.

Main results:

- **Blog filter.** The filtered list is an order-preserving subsequence of the fetched
  list. It holds exactly the posts that pass both active filters, each as many times
  as it was fetched. With no query and category "All"/"الكل" it equals the fetched
  list.
- **Upload loop.** `ProcessAndUploadImages` is proved against the specification
  function `UploadedUrls`. The URLs come in file order, a failing file is skipped, and
  there is one URL per file iff every file is stored.
- **Delete inverts upload** (`DeletePathOfUploadedUrl`, `DeleteRemovesStoredObjects`).
  Suppose no stamp holds a '/'. Then the storage path `deleteItem` derives from an
  uploaded object's public URL is the path it was uploaded to, whatever the public
  prefix holds. So deleting an item removes exactly the objects its creation stored.
  The proof models JavaScript's `split` as written: a greedy left-to-right scan. It
  then shows that for a separator whose only '/' is its last character, like
  `project-images/` or `blog-images/`, the last piece follows the last occurrence.

Two behaviours of the code are worth knowing:

- A project or post can be inserted with an empty `images_urls`. `handleAddItem`
  refuses only an empty selection (app/admin/page.js:136-137), and a run in which every
  file fails yields no URL (`Admin.NoStoredFileNoUrls`).
- `lang` is a string and `setLang` is exported (context/LanguageContext.js:23), so any
  code can be set. Two toggles restore only `"ar"` and `"en"`
  (`Language.ToggleTwiceNormalises`).

## Model

| member | source | states |
|---|---|---|
| Language.Toggled | context/LanguageContext.js:18-20 | "ar" toggles to "en"; every other code toggles to "ar" |
| Language.Direction | context/LanguageContext.js:15 | the direction is "rtl" iff the code is "ar", and "ltr" iff it is not |
| Language.ToggleTwice | context/LanguageContext.js:19 | for "ar" and "en", toggling twice gives back the original code |
| Language.ToggleTwiceNormalises | context/LanguageContext.js:19 | any other code becomes "en" after two toggles, so it is not restored |
| Language.ToggleFlipsDirection | context/LanguageContext.js:15-19 | every toggle changes the document direction |
| Language.LanguageProvider.constructor | context/LanguageContext.js:9-16 | the provider starts at "ar"; after the mount effect the document has lang "ar" and dir "rtl" |
| Language.LanguageProvider.SyncDocument | context/LanguageContext.js:11-16 | the effect makes the document's lang equal the code and its dir equal the code's direction |
| Language.LanguageProvider.SetLang | context/LanguageContext.js:23 | setLang stores any code, and the document is synced to it |
| Language.LanguageProvider.ToggleLanguage | context/LanguageContext.js:18-20 | the new code is the toggled old one, the document is synced, and its direction flips |
| Seqs.Keep | app/blogs/page.js:75-84 | a filter result is no longer than its input, and holds only input elements that pass the predicate |
| Seqs.KeepIsSubsequence | app/blogs/page.js:75-84 | a filter result is an order-preserving subsequence of its input |
| Seqs.KeepCount | app/blogs/page.js:75-84 | a filter keeps every copy of a passing element and no copy of a failing one |
| Text.Lower | app/blogs/page.js:77-78 | lower-casing keeps the length, maps each ASCII capital to its small letter, keeps every other character, and leaves no ASCII capital |
| Text.LowerIdempotent | app/blogs/page.js:77-78 | lower-casing twice is lower-casing once |
| Text.IndexOf | app/blogs/page.js:77-78 | `indexOf` returns an index where the substring occurs with no earlier occurrence, or None exactly when it occurs nowhere |
| Text.Split | app/admin/page.js:190 | `split` yields at least one piece; joining the pieces with the separator gives back the string; no piece contains the separator |
| Text.SplitCutsAtFirstOccurrence | app/admin/page.js:190 | `split` yields one piece iff the separator does not occur; otherwise the first piece ends at the first occurrence and the remaining pieces are the split of what follows it |
| Text.LastPiece | app/admin/page.js:190-191 | the last piece of a split contains no occurrence of the separator |
| Text.LastPieceFollowsSeparator | app/admin/page.js:190-191 | when the separator occurs, the string ends with the separator followed by the last piece |
| Text.LastOccurrence | app/admin/page.js:190-191 | for a separator whose only '/' is its last character, the occurrence before the last piece is the last occurrence |
| Text.LastPieceAfter | app/admin/page.js:189-192 | splitting `x + sep + t` gives `t` as the last piece, whatever `x` holds, when `t` has no '/' and sep's only '/' is its last character |
| Blogs.FilterBlogs | app/blogs/page.js:71-87 | every listed post was fetched and passes both active filters; the list is no longer than the fetched one |
| Blogs.FilterIsSubsequence | app/blogs/page.js:75-84 | the filtered list is an order-preserving subsequence of the fetched list |
| Blogs.FilterCount | app/blogs/page.js:72-86 | a selected post appears as many times as it was fetched; any other post does not appear |
| Blogs.FilterMembership | app/blogs/page.js:74-84 | a post is listed iff it was fetched and passes both active filters (soundness and completeness) |
| Blogs.FilterSearchSound | app/blogs/page.js:74-79 | with a non-empty query, every listed post has a title or title_en that contains the query, compared after lower-casing |
| Blogs.FilterCategorySound | app/blogs/page.js:82-84 | with a category other than "All"/"الكل", every listed post has exactly that category |
| Blogs.UntitledExcluded | app/blogs/page.js:77-78 | a post with both titles absent is never listed while the query is non-empty |
| Blogs.SearchIgnoresQueryCase | app/blogs/page.js:77-78 | a post is selected for a query iff it is selected for the lower-cased query |
| Blogs.FilterIdentity | app/blogs/page.js:72-86 | with an empty query and category "All" or "الكل", the list is the fetched list |
| Blogs.FilterKeepsUniformCategory | app/blogs/page.js:82-84 | with an empty query, the category filter keeps the list whole when every post has that category |
| Blogs.Translations | app/blogs/page.js:27-48 | "en" selects the English dictionary; "ar" and every unknown code select the Arabic one |
| Blogs.FirstCategoryIsAll | app/blogs/page.js:32-44 | in each dictionary, the first category button and `all` are the "no filter" labels, and the other three buttons are not |
| Blogs.Localized | app/blogs/page.js:196-201 | Arabic mode shows the Arabic field; English mode shows the English field when it is non-empty, otherwise the Arabic field |
| Blogs.DisplayTitle | app/blogs/page.js:196 | a card's title is title_en in English mode when title_en is non-empty, otherwise title |
| Blogs.DisplayDescription | app/blogs/page.js:199-201 | a card's description is description_en in English mode when it is non-empty, otherwise description |
| Blogs.LocalizedNeverBlankWhenAvailable | app/blogs/page.js:196-201 | in English mode the shown text is non-empty iff either language has text; in Arabic mode, iff the Arabic field has text |
| Contact.RowOf | components/Contact.js:36-43 | the email is null iff the entered email is empty, and the entered email otherwise; the other three fields are copied verbatim |
| Contact.RowOfRoundTrip | components/Contact.js:36-43 | the entered form can be read back from the row it produced |
| Contact.RowOfInjective | components/Contact.js:36-43 | two different forms never produce the same row |
| Contact.ContactPage.constructor | components/Contact.js:20-28 | the page starts not submitting, with a null status, an empty form and no request sent |
| Contact.ContactPage.Edit | components/Contact.js:198-274 | an input's onChange replaces the form data |
| Contact.ContactPage.HandleSubmit | components/Contact.js:30-55 | exactly one row, built from the old form, is sent; isSubmitting is true and status null while it is in flight; afterwards isSubmitting is false; on success status is success and the form is empty; on failure status is error and the form is unchanged |
| Admin.TabName | app/admin/page.js:266-295 | each tab has its own name: "projects", "blogs" or "messages" |
| Admin.TableFor | app/admin/page.js:140 | an item goes to "projects" iff the tab is Projects, and to "blogs" otherwise |
| Admin.FolderFor | app/admin/page.js:141 | the folder is "project-images" iff the tab is Projects, and "blog-images" otherwise; its only '/' is the one added after it |
| Admin.RowOf | app/admin/page.js:145-153 | the row maps title_ar to title, title_en to title_en, description_ar to description, description_en to description_en, and the URL list to images_urls |
| Admin.RowOfRoundTrip | app/admin/page.js:145-153 | the form and the URL list can be read back from the inserted row |
| Admin.UploadPath | app/admin/page.js:108-111 | an upload path starts with the folder and '/', and ends with ".webp" |
| Admin.PublicUrl | app/admin/page.js:122-124 | a public URL ends with the object path |
| Admin.UploadRequests | app/admin/page.js:105-120 | the loop sends at most one upload per file, and every upload path starts with the folder and '/' and ends with ".webp" |
| Admin.UploadedUrls | app/admin/page.js:105-130 | the loop collects at most one URL per selected file |
| Admin.StoredPaths | app/admin/page.js:111-125 | at most one object path is stored per selected file |
| Admin.UploadedUrlsAppend | app/admin/page.js:105-130 | the URLs for two runs of files are the URLs of the first run followed by those of the second |
| Admin.FailedFileSkipped | app/admin/page.js:126-128 | a file that fails compression or upload adds nothing, and the later files still contribute |
| Admin.StoredFileKept | app/admin/page.js:122-125 | a stored file adds its URL exactly at its position among the files |
| Admin.AllUrlsIffAllStored | app/admin/page.js:105-130 | there is one URL per selected file iff every file is stored |
| Admin.NoStoredFileNoUrls | app/admin/page.js:105-153 | when no file is stored, the collected list is empty |
| Admin.StoragePath | app/admin/page.js:189-192 | the path starts with the folder and '/'; without that separator in the URL it is the separator followed by the whole URL; with it, the URL ends with the path |
| Admin.StoragePathAfterLastOccurrence | app/admin/page.js:190-191 | for the two image folders, the separator occurs nowhere after the position where the path begins in the URL |
| Admin.StoragePaths | app/admin/page.js:189-192 | there is exactly one path per URL, in the same order, and each starts with the folder and '/' |
| Admin.DeletePathOfUploadedUrl | app/admin/page.js:189-192 | the path derived from an uploaded object's public URL is its upload path, for any public prefix and any stamp without '/' |
| Admin.DeleteRemovesStoredObjects | app/admin/page.js:187-193 | the paths derived from an item's collected URLs are exactly the stored objects' paths, in order |
| Admin.RemovalRequests | app/admin/page.js:187-194 | no storage removal is sent when images_urls is absent or empty; otherwise one removal of all derived paths is sent |
| Admin.LoginError | app/admin/page.js:74-82 | the error is empty iff a row was found, the wrong-password text iff no row came back, and the connection text iff the lookup threw |
| Admin.AdminDashboard.constructor | app/admin/page.js:22-93 | the dashboard starts logged out on the Projects tab with an empty form; a session already marked admin is logged in and sends one fetch |
| Admin.AdminDashboard.SetPassword | app/admin/page.js:231 | the password input replaces the password |
| Admin.AdminDashboard.SelectTab | app/admin/page.js:266-295 | a sidebar button makes its tab active |
| Admin.AdminDashboard.SelectFiles | app/admin/page.js:424-426 | the file input replaces the selected files |
| Admin.AdminDashboard.EditForm | app/admin/page.js:367-412 | a text input's onChange replaces the form data |
| Admin.AdminDashboard.HandleLogin | app/admin/page.js:63-86 | one lookup of the current password is sent; a found row logs in, marks the session and sends a fetch; otherwise the login and session flags are unchanged and the error is set; loading ends false |
| Admin.AdminDashboard.Logout | app/admin/page.js:297-301 | logout clears the session flag and the logged-in flag |
| Admin.AdminDashboard.ProcessAndUploadImages | app/admin/page.js:96-131 | the returned URLs are UploadedUrls of the file outcomes; the uploads sent are UploadRequests of the outcomes |
| Admin.AdminDashboard.HandleAddItem | app/admin/page.js:134-175 | with no file selected, nothing changes and nothing is sent; otherwise the uploads, then one insert of the mapped row into the tab's table, then a fetch on success, are sent; on success the form and files are cleared, on failure they are kept; loading ends false |
| Admin.AdminDashboard.InsertItem | app/admin/page.js:145-174 | one insert of the row built from the old form and the URLs is sent, plus a fetch on success; on success the form and files are cleared, on failure they are kept; loading ends false |
| Admin.AdminDashboard.DeleteItem | app/admin/page.js:178-203 | if not confirmed, nothing changes and nothing is sent; otherwise the removal requests, then the row deletion from the table named by the tab, then a fetch on success, are sent; loading ends false |

## Left out

- All backend calls. The backend is represented by the request log and by the outcome
  parameters described above. What the backend stores, and the lists that
  `fetchData` loads into the dashboard, are not modelled; a refetch is one
  `FetchAll` request.
- Image compression (`browser-image-compression`, with its size and dimension
  limits). Each file's compression either succeeds or throws, as given by its
  `FileOutcome`.
- Filename generation from `Date.now()` and `Math.random()`. The name's stamp is a
  per-file parameter. The round-trip lemmas assume the stamp holds no '/', which the
  generated names never do.
- `getPublicUrl` is the storage client's own code. It is modelled as the object path
  appended to a public prefix.
- Text.Lower: lower-cases only ASCII letters. JavaScript's `toLowerCase` also maps
  non-ASCII capitals, which this model does not do.
- Blogs.Translations: models only string codes. A code that names an inherited
  JavaScript object property (for example "constructor") would look up that property
  instead of falling back to Arabic.
- Date formatting with `toLocaleDateString`, the cover-image fallback, alert and
  console messages, and `confirm` (its answer is a parameter).
- `sessionStorage` is a boolean field. `sessionStorage.clear()` on logout is modelled
  as clearing that flag.
- React's asynchronous, batched state updates. Each handler runs as one sequential
  method; the request it awaits happens at the point the code calls it.
- The `loading` flag while a request is in flight. The model states only its value
  after each handler.
- A storage removal that throws. The code ignores the removal's result, and the model
  always goes on to the row deletion.
- Markup-only pages and components, animation, scroll listeners and menu toggles.
  They hold no logic beyond choosing a string by `lang === "ar"`.
