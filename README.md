# PersonalWebManager data layer in Dafny

A model of the content-management core of PersonalWebManager, a small
personal web site with an admin area. The site keeps three collections:
pages, menu items and custom buttons. It also keeps a settings map and an
admin login flag. The model covers:

- **`Storage`**: the in-memory store `MemStorage`. It holds maps keyed by integer id and one id counter per kind. It has create / update / delete for pages and menu items, the bulk menu re-rank and the name-keyed settings upsert.
- **`MenuService`, `PageService`, `CustomButtons`**: the three file-backed list services. Each one loads a JSON array, edits it in place and saves it. Here the file is a `seq` field of a class, read and written by each method.
- **`Header`**: the site header's navigation targets. This means the href of a menu item, the highlighted link and the effect of a click. `Uri` holds the percent-encoding the iframe links use, together with its decoder.
- **`CustomButtonModal`, `CustomButtonsSection`**: the admin dialogs for custom buttons. They derive a button's url from its type and target, shape the saved record, and edit the list kept in the browser's local storage.
- **`MenuItemModal`, `PageModal`**: the menu item and page dialogs. They build the request bodies, generate slugs from titles and check the form.
- **`Auth`**: the admin session flag and its copy in local storage.

`Schema` holds the records and the column defaults. `IdList` holds the list idioms the services share: `findIndex`, `find`, `max + 1` and `splice`. `Wrappers` holds `Option`, and `Text` holds `startsWith`.

Field `type` of the records is called `linkType`, because `type` is a Dafny
keyword. JavaScript `null` is `None`. In update records, a key that is left out is
`None` and an explicit null is `Some(None)`. Clocks (`Date.now()`, `new Date()`),
the browser location and the server's answer to a login are parameters.

The dialog classes (`MenuItemForm`, `PageForm`) follow the code as written,
including the three faults listed under "## Findings". Each corrected
definition (`MenuItemModal.Submits`, `MenuItemModal.IntendedType`,
`PageModal.TitleChange`) is stated beside it, and its intended property is
proved there.

## Model

| member | source | states |
|---|---|---|
| Storage.MemStorage.constructor | server/storage.ts:58-192 | the store starts with pages 1-3 (home, servicos, site, both timestamps `now`) and menu items 1-4 (orders 1-4, all internal), page counter 4, menu counter 5, no settings |
| Storage.MemStorage.GetPages | server/storage.ts:213-215 | every stored page exactly once, strictly ascending by id |
| Storage.MemStorage.GetPage | server/storage.ts:217-219 | present exactly when a page is stored under the id, and then it is that page |
| Storage.MemStorage.GetPageBySlug | server/storage.ts:221-223 | a stored page with the slug and the least id among those, i.e. the first in insertion order; absent exactly when no page has the slug |
| Storage.CreateThenGetBySlug | server/storage.ts:221-236 | after creating a page, a lookup of its slug finds a page with that slug, and finds the new page unless an older page already has the slug |
| Storage.MemStorage.CreatePage | server/storage.ts:225-236 | the new page takes the counter as a fresh id and is stored under it with createdAt = updatedAt = now; the counter goes up by one; nothing else changes |
| Storage.MemStorage.UpdatePage | server/storage.ts:238-250 | unknown id: absent, nothing changes; otherwise the supplied fields overlay the page, id and createdAt stay, updatedAt becomes now, only that entry changes |
| Storage.MemStorage.DeletePage | server/storage.ts:252-254 | true exactly when the id was stored; only that entry is removed |
| Storage.MemStorage.GetMenuItems | server/storage.ts:257-259 | every stored item exactly once, ascending by order, ties in ascending id (the stable sort over insertion order) |
| Storage.SortByRank | server/storage.ts:258 | the sort result is sorted by (order, id) and is a permutation of its input |
| Storage.InsertByRankSorted | server/storage.ts:258 | inserting into a sorted list keeps it sorted |
| Storage.MemStorage.GetMenuItem | server/storage.ts:261-263 | present exactly when an item is stored under the id, and then it is that item |
| Storage.MemStorage.CreateMenuItem | server/storage.ts:265-278 | a fresh id from the counter; text, type and the caller's order stored as given; a missing or empty link or URL stored as null; nothing else changes |
| Storage.OrNull | server/storage.ts:273-274 | `x \|\| null`: the value is kept exactly when it is a non-empty string, otherwise null |
| Storage.MemStorage.UpdateMenuItem | server/storage.ts:280-296 | unknown id: absent, nothing changes; otherwise id and order are kept and each of text, type, internalLink and externalUrl changes only when supplied |
| Storage.MergeMenuFields | server/storage.ts:284-293 | id and order are kept; text, type, internalLink and externalUrl each take the supplied value and otherwise stay |
| Storage.MemStorage.DeleteMenuItem | server/storage.ts:298-300 | true exactly when the id was stored; only that entry is removed |
| Storage.MemStorage.ReorderMenuItems | server/storage.ts:302-314 | the loop leaves the map re-ranked (each stored listed id gets its last index + 1, unknown ids skipped, others unchanged) and returns getMenuItems of the result |
| Storage.RerankedStep | server/storage.ts:304-311 | one loop step re-ranks the id at index i to i + 1 when it is stored and changes nothing else |
| Storage.RerankedOrders | server/storage.ts:302-311 | with no repeated id: same keys; each stored listed id has order index + 1; unlisted items are unchanged; only `order` ever changes |
| Storage.MemStorage.GetSetting | server/storage.ts:317-319 | present exactly when a setting is stored under the name, and then it is that setting |
| Storage.MemStorage.SaveSetting | server/storage.ts:321-326 | the setting is stored under its name, replacing any earlier one, and always takes a fresh id from the counter |
| MenuService.DefaultMenuItems | server/menuService.ts:39-69 | four items with ids 1-4 and orders 1-4, all internal, ids unique |
| MenuService.MenuFile.constructor | server/menuService.ts:21-29 | with no file the list is the default items, otherwise the stored list |
| MenuService.MenuFile.GetMenuItem | server/menuService.ts:83-86 | the first item with the id; absent exactly when no item has it |
| MenuService.MenuFile.CreateMenuItem | server/menuService.ts:89-101 | id = largest id + 1 (1 when empty), greater than every stored id; appended at the end, the rest unchanged |
| MenuService.CreateKeepsUnique | server/menuService.ts:89-101 | creating keeps the ids unique |
| MenuService.MenuFile.UpdateMenuItem | server/menuService.ts:104-120 | unknown id: absent, list unchanged; otherwise the first match is replaced in place by the overlay of the update, everything else unchanged |
| MenuService.MenuFile.DeleteMenuItem | server/menuService.ts:123-134 | false with no change when absent; otherwise exactly the first match is spliced out |
| MenuService.MenuFile.ReorderMenuItems | server/menuService.ts:137-159 | the loop builds the block of listed items, then appends the unlisted ones; the result is saved and returned |
| MenuService.Ranked | server/menuService.ts:143-150 | what index j contributes: an item with id ids[j], ranked j + 1, or nothing for an unknown id |
| MenuService.RankedFirstMatch | server/menuService.ts:144-149 | the contribution is the first stored item with id ids[j] (as `find` returns it), all its fields kept except the rank, which becomes j + 1 |
| MenuService.RankedStored | server/menuService.ts:143-150 | index j contributes nothing exactly when its id is not stored; a contribution is a stored record with only its rank changed |
| MenuService.BlockEntries | server/menuService.ts:141-152 | each block entry is the contribution of index order - 1 |
| MenuService.BlockShape | server/menuService.ts:141-152 | ranks strictly increase in id-list order, every contribution is present, and an unknown id leaves its rank unused (a gap) |
| MenuService.NotListed | server/menuService.ts:155 | the unlisted items, each stored and not listed, and every stored unlisted item present |
| MenuService.NotListedAppend | server/menuService.ts:154-156 | the unlisted items keep their stored order: an item added at the end shows up last among them, and only when it is not listed |
| MenuService.ReorderIsPermutation | server/menuService.ts:137-159 | with unique stored ids and no repeated listed id, the result carries the same ids as the stored list, each record changed at most in its rank |
| MenuService.ReorderIdsDistinct | server/menuService.ts:137-159 | under the same conditions no id occurs twice in the result |
| PageService.DefaultPages | server/pageService.ts:39-60 | three pages, ids 1-3, slugs home, servicos, site |
| PageService.PageFile.constructor | server/pageService.ts:21-29 | with no file the list is the default pages, otherwise the stored list |
| PageService.PageFile.GetPageBySlug | server/pageService.ts:73-76 | the first page with the slug; absent exactly when none has it |
| PageService.PageFile.GetPage | server/pageService.ts:79-82 | the first page with the id; absent exactly when none has it |
| PageService.PageFile.CreatePage | server/pageService.ts:85-97 | id = largest id + 1 (1 when empty), appended, no slug check |
| PageService.CreateThenGetPage | server/pageService.ts:85-97 | a created page is what a lookup of its id finds |
| PageService.DuplicateSlugShadowed | server/pageService.ts:73-97 | creating a page whose slug is taken leaves the older page as the one a slug lookup finds |
| PageService.PageFile.UpdatePage | server/pageService.ts:100-116 | unknown id: absent, no change; otherwise any supplied field overrides the stored one at the same index |
| PageService.PageFile.DeletePage | server/pageService.ts:119-130 | true exactly when a page had the id; exactly the first such page is spliced out |
| CustomButtons.ButtonFile.constructor | server/customButtons.ts:21-26 | with no file the list is empty |
| CustomButtons.OnPage | server/customButtons.ts:46-49 | the buttons of a page: each one stored and on that page, and every stored button of that page present |
| CustomButtons.ButtonFile.ButtonsByPage | server/customButtons.ts:46-49 | exactly the buttons of the page, all of them, in stored order |
| CustomButtons.OnPageAppend | server/customButtons.ts:46-70 | filtering distributes over an append: a new button shows up last on its own page only |
| CustomButtons.ButtonFile.ButtonById | server/customButtons.ts:52-55 | the first button with the id; absent exactly when none has it |
| CustomButtons.ButtonFile.AddButton | server/customButtons.ts:58-70 | id = largest id + 1 (1 when empty), greater than every stored id, appended |
| CustomButtons.ButtonFile.UpdateButton | server/customButtons.ts:73-89 | unknown id: absent, no change; otherwise a plain overlay at the first match, and the url stays unless the update carries one |
| CustomButtons.StaleUrlAfterTypeChange | server/customButtons.ts:81-84 | an update that switches an internal button to external keeps its old url "/home" |
| CustomButtons.ButtonFile.DeleteButton | server/customButtons.ts:92-103 | true exactly when a button had the id; only the first match is spliced out |
| IdList.IndexOf | server/menuService.ts:106 | `findIndex`: the first index with the key, absent exactly when none has it |
| IdList.NextId | server/menuService.ts:91 | largest key + 1, greater than every key, 1 for an empty list |
| IdList.AppendFreshThenFind | server/customButtons.ts:58-70 | a record appended under the next id is what a lookup of that id finds |
| IdList.ReplaceThenFind | server/customButtons.ts:73-89 | after replacing the first match, a lookup of the id finds the replacement |
| IdList.RemoveThenFind | server/customButtons.ts:92-103 | with unique keys, after the splice no record has the id |
| IdList.WithoutKeyIsRemoveFirst | client/src/components/admin/CustomButtonsSection.tsx:53 | with unique keys, filtering an id out equals splicing out its first match |
| IdList.WithoutKeyAppend | client/src/components/admin/CustomButtonsSection.tsx:53 | for any list, the filter keeps the other records in their original order: an appended record is kept, last, exactly when its id differs |
| Header.WithScheme | client/src/components/Header.tsx:26 | the result names http(s); a URL that already does is kept, any other gets "http://" in front |
| Header.WithSchemeIdempotent | client/src/components/Header.tsx:26 | defaulting the scheme twice is the same as once |
| Header.InternalPathRule | client/src/components/Header.tsx:17-22 | the servicos, site and alex branches agree with the general "/" + link rule; home is "/" |
| Header.PathForMenuItem | client/src/components/Header.tsx:16-35 | internal: "/" for home, else "/" + link; iframe: "/iframe/" + a slash-free segment that decodes to the scheme-defaulted URL (null as ""); any other type: "#" |
| Header.IsActive | client/src/components/Header.tsx:65-69 | the home path "/" is highlighted exactly at "/"; any other path exactly where the location starts with it |
| Header.ActiveAtOwnPath | client/src/components/Header.tsx:65-69 | an item is highlighted at the path it links to |
| Header.HomeActiveOnlyAtRoot | client/src/components/Header.tsx:65-69 | the home item is highlighted exactly at "/" |
| Header.PrefixHighlight | client/src/components/Header.tsx:67 | highlighting is by string prefix: the site item is highlighted at "/sitemap" |
| Header.HashNeverActive | client/src/components/Header.tsx:32-34 | items that link to "#" are never highlighted at a path |
| Header.Click | client/src/components/Header.tsx:37-63 | external items not flagged for iframe open externalUrl in a new context; internal items fail exactly when the link is null; everything else follows its href |
| Header.ClickMatchesHref | client/src/components/Header.tsx:46-61 | for a link without a leading "/", the click assigns protocol//host + the item's own href (home gives the empty path) |
| Header.ClickStripsOneSlash | client/src/components/Header.tsx:60 | exactly one leading "/" of the link is removed before protocol//host/ is put in front |
| Uri.Encode | client/src/components/Header.tsx:27 | `encodeURIComponent`: every output character is unreserved or "%"; what the escapes mean is pinned by `Uri.DecodeEncode` |
| Uri.EncodeHasNoSlash | client/src/components/Header.tsx:27 | an encoded URL holds no "/", so it stays one path segment |
| Uri.DecodeEncode | client/src/pages/IframePage.tsx:10 | `decodeURIComponent` gives back exactly the string `encodeURIComponent` encoded |
| Uri.Decode | client/src/pages/IframePage.tsx:10 | `decodeURIComponent`: never longer than its input, and a string without "%" decodes to itself |
| Uri.HexRoundTrip | client/src/pages/IframePage.tsx:10 | a hex digit reads back as its value |
| CustomButtonModal.ButtonUrl | client/src/components/admin/CustomButtonModal.tsx:153-163 | the url is "" exactly when the type is unknown or its own target is empty or null; otherwise the target can be read back from the url |
| CustomButtonModal.Shaped | client/src/components/admin/CustomButtonModal.tsx:167-206 | the saved record keeps id and createdAt, takes text, type, pageSlug, style, size and openInNewTab from the form, holds only the target field its type uses, and its url is the one its type and target derive |
| CustomButtonModal.NewButton | client/src/components/admin/CustomButtonModal.tsx:194-206 | a new record takes the clock as id, has no createdAt, takes text, type, pageSlug, style, size and openInNewTab from the form, and has the saved shape |
| CustomButtonModal.EditAll | client/src/components/admin/CustomButtonModal.tsx:167-184 | entries with the edited id are reshaped in place, every other entry is unchanged, all ids and positions stay |
| CustomButtonModal.EditDefaults | client/src/components/admin/CustomButtonModal.tsx:108-118 | text, pageSlug, type and targets are the stored ones; style is the stored one when not empty, else "primary"; size the stored one when not empty, else "default"; openInNewTab is true unless stored as false |
| CustomButtonModal.ResubmitUnchanged | client/src/components/admin/CustomButtonModal.tsx:108-184 | saving an edit of a well-shaped record without touching the form gives back that record |
| CustomButtonModal.ButtonForm.ChangeLinkType | client/src/components/admin/CustomButtonModal.tsx:82-102 | a known type is set, the target fields of the other types become null and the type's own target is kept; an unknown value changes only the tab |
| CustomButtonModal.ButtonForm.Open | client/src/components/admin/CustomButtonModal.tsx:104-147 | an edit starts from the edit defaults and the tab follows a known stored type; a new button starts from the create defaults |
| CustomButtonModal.ButtonStore.SaveButton | client/src/components/admin/CustomButtonModal.tsx:149-209 | an edit reshapes the entries with the edited id; a create appends exactly one new record at the end |
| CustomButtonsSection.AfterDelete | client/src/components/admin/CustomButtonsSection.tsx:50-54 | with a button selected, exactly the buttons with another id remain; with none, nothing changes |
| CustomButtonsSection.DeleteAgreesWithSplice | client/src/components/admin/CustomButtonsSection.tsx:53 | with unique ids, the filter removes the same entry the server's splice removes |
| CustomButtonsSection.ConfirmDelete | client/src/components/admin/CustomButtonsSection.tsx:50-54 | the stored list becomes the filtered list |
| CustomButtonsSection.FirstWithSlug | client/src/components/admin/CustomButtonsSection.tsx:127 | `find`: the first page with the slug; absent exactly when none has it |
| CustomButtonsSection.PageName | client/src/components/admin/CustomButtonsSection.tsx:127 | the title of the first page with the button's slug when that title is not empty; "Página não encontrada" exactly when there is no such page or its title is empty; never empty |
| CustomButtonsSection.TypeLabel | client/src/components/admin/CustomButtonsSection.tsx:143-144 | "Página" exactly for internal, "iFrame" exactly for iframe, "Externo" for every other type |
| CustomButtonsSection.Badge | client/src/components/admin/CustomButtonsSection.tsx:133-139 | blue, purple and green exactly where the label is Página, iFrame and Externo |
| MenuItemModal.EditForm | client/src/components/admin/MenuItemModal.tsx:80-87 | an edit starts from the stored fields, with "open in iframe" ticked exactly for iframe items |
| MenuItemModal.TabFor | client/src/components/admin/MenuItemModal.tsx:89 | iframe items show under the external tab; other types under their own |
| MenuItemModal.SubmitsAsWritten | client/src/components/admin/MenuItemModal.tsx:36-42 | the schema as written: text and a known type are required, and a URL input holding "" always fails |
| MenuItemModal.Submits | client/src/components/admin/MenuItemModal.tsx:36-42 | the intended check: an internal item passes exactly when its text is filled in; another type with "" as URL fails |
| MenuItemModal.PayloadType | client/src/components/admin/MenuItemModal.tsx:117-120 | the sent type is iframe exactly when the form type is iframe, or external with the box ticked; otherwise it is the form type |
| MenuItemModal.IntendedType | client/src/components/admin/MenuItemModal.tsx:185-190 | internal stays internal; under the external tab the box alone chooses iframe or external |
| MenuItemModal.IntendedAgreesOutsideUncheck | client/src/components/admin/MenuItemModal.tsx:156-159 | the written and intended types differ exactly on an iframe form whose box was cleared |
| MenuItemModal.UncheckKeepsIframe | client/src/components/admin/MenuItemModal.tsx:80-89 | opening an iframe item and clearing the box still sends iframe as written |
| MenuItemModal.CreatePayload | client/src/components/admin/MenuItemModal.tsx:103-120 | order = loaded items + 1; the type is the as-written `PayloadType` (external with the box ticked becomes iframe); only internal items send a link and only the other types send a URL |
| MenuItemModal.UpdatePayload | client/src/components/admin/MenuItemModal.tsx:146-159 | no order and no id; the type is the as-written `PayloadType`, so an iframe form stays iframe whatever the box says; the target of the other kind is sent as an explicit null |
| MenuItemModal.ResubmitUnchanged | client/src/components/admin/MenuItemModal.tsx:146-159 | saving an edit of a well-shaped item without touching the form writes the same item back, on either server update |
| MenuItemModal.SavedItemsShaped | client/src/components/admin/MenuItemModal.tsx:103-159 | every item the dialog saves has only the target its type uses |
| MenuItemModal.NewInternalItemBlocked | client/src/components/admin/MenuItemModal.tsx:36-42 | the new-item form never passes the schema as written, whatever text and page are chosen; it passes the intended check |
| MenuItemModal.SubmitsWeakensOnlyInternal | client/src/components/admin/MenuItemModal.tsx:36-42 | the intended check accepts all the written one does, and differs only for internal items |
| MenuItemModal.MenuItemForm.ChangeLinkType | client/src/components/admin/MenuItemModal.tsx:199-210 | the tab and type follow the choice; internal empties the URL and clears the box, external empties the page link |
| MenuItemModal.MenuItemForm.SetOpenInIframe | client/src/components/admin/MenuItemModal.tsx:308-324 | the box, shown under the external tab only, sets openInIframe and changes nothing else |
| MenuItemModal.MenuItemForm.Open | client/src/components/admin/MenuItemModal.tsx:79-101 | an edit starts from the stored item and its tab, a new item from the defaults under the internal tab |
| MenuItemModal.MenuItemForm.Submit | client/src/components/admin/MenuItemModal.tsx:185-197 | nothing is sent exactly when the form fails the schema as written (`SubmitsAsWritten`); otherwise an edit sends the update of the edited id, a new item the create body |
| PageModal.Lower | client/src/components/admin/PageModal.tsx:166 | `toLowerCase` keeps slug characters and never turns a character into whitespace or back |
| PageModal.Slugify | client/src/components/admin/PageModal.tsx:166 | the slug of a title (lower-case, whitespace runs to "-", only [a-z0-9-] kept), never longer than the title |
| PageModal.Dashed | client/src/components/admin/PageModal.tsx:166 | after the run replacement no whitespace is left |
| PageModal.SlugifyAlphabet | client/src/components/admin/PageModal.tsx:166 | a generated slug holds only a-z, 0-9 and "-" |
| PageModal.SlugifyIdempotent | client/src/components/admin/PageModal.tsx:166 | generating a slug from a slug changes nothing |
| PageModal.SlugifyMatchesPattern | client/src/components/admin/PageModal.tsx:31-32 | a generated slug matches `^[a-z0-9-]+$` exactly when it is not empty |
| PageModal.TitleChangeAsWritten | client/src/components/admin/PageModal.tsx:160-169 | as written, an empty slug is filled from the new title and any other slug is kept |
| PageModal.TitleChangeStopsFollowing | client/src/components/admin/PageModal.tsx:160-169 | typing "A" then "Ab" leaves the slug "a" as written |
| PageModal.TitleChange | client/src/components/admin/PageModal.tsx:160-169 | as intended, an empty slug or the previous title's slug follows the new title; a hand-edited slug stays |
| PageModal.AutoSlugFollows | client/src/components/admin/PageModal.tsx:160-169 | a slug that follows its title keeps following it through any series of title edits |
| PageModal.MenuEntryFor | client/src/components/admin/PageModal.tsx:89-98 | the menu item for a new page: text = title, order = loaded items + 1, internal, link = slug, no URL |
| PageModal.Request | client/src/components/admin/PageModal.tsx:83-127 | create sends title, slug and content, and exactly when addToMenu is set the menu item of `MenuEntryFor` (title as text, next order, internal, link = slug, no URL); an edit sends only those three fields to the page's id |
| PageModal.ResubmitUnchanged | client/src/components/admin/PageModal.tsx:59-76 | saving an edit without touching the form writes the stored fields back |
| PageModal.PageForm.Open | client/src/components/admin/PageModal.tsx:60-76 | an edit starts from the page's title, slug and content without addToMenu; a new page from empty fields |
| PageModal.PageForm.ChangeSlug | client/src/components/admin/PageModal.tsx:200-212 | typing into the slug field sets the slug and nothing else |
| PageModal.PageForm.ChangeTitle | client/src/components/admin/PageModal.tsx:160-169 | as written: the title changes; an empty slug is filled from the new title and any other slug is kept |
| PageModal.PageForm.Submit | client/src/components/admin/PageModal.tsx:29-35 | nothing is sent unless title, slug and content are filled in and the slug matches the pattern |
| Auth.AuthRoute | server/routes.ts:152-164 | the server answers success exactly for the admin password |
| Auth.Succeeded | client/src/hooks/useAuth.tsx:38 | `!!data.success`: true exactly for an answer with success true; a thrown request is false |
| Auth.OnlyAdminPasswordLogsIn | client/src/hooks/useAuth.tsx:33-50 | a login succeeds exactly for the admin password |
| Auth.AuthProvider.constructor | client/src/hooks/useAuth.tsx:23-31 | on load the flag is set exactly when the stored entry is "true" |
| Auth.AuthProvider.Login | client/src/hooks/useAuth.tsx:33-50 | success sets the flag and stores "true"; a refused or failed request returns false and changes nothing |
| Auth.AuthProvider.Logout | client/src/hooks/useAuth.tsx:52-55 | the flag is cleared and the entry removed, so the next load starts logged out |

## Left out

- `DatabaseStorage` (the PostgreSQL store) is left out. Every method is a call into the database driver, whose behaviour is not visible here.
- User accounts (`getUser`, `getUserByUsername`, `createUser`) are left out. They are plumbing that no core operation uses.
- The file-system plumbing of the three services is left out. This covers the directory creation, reading and writing the JSON files, parse errors and the error fallbacks. Each file is the `seq` field of its class.
- The `url` key of the menu service's default items is left out. Those items are modelled with null targets.
- The rich-text editor, the route handlers, the HTTP status codes and the page components are left out.
- The Zod parsing on the server is left out. The page update route's partial insert schema is kept as the precondition `IsInsertPagePatch` of `Storage.MemStorage.UpdatePage`.
- async/await, react-query caching and invalidation, toasts, `window.location.reload` and `console` logging are left out.
- JSON serialisation of local storage is left out.
- Header.Click: the `window.open` and `location.href` effects are outcome values. The browser's protocol and host are parameters.
- Uri.Encode: lone surrogates, on which `encodeURIComponent` throws, cannot occur. Dafny characters are Unicode scalar values.
- PageModal.Lower: `toLowerCase` is modelled only as far as the slug can observe it. This covers A-Z, the Kelvin sign and the dotted capital I. Every other character either keeps its case or lowers to one the slug filter drops.
- MenuItemModal.UrlShaped: Zod's URL check is modelled only as "a scheme followed by ':'". The model accepts more strings than the real check does. It rejects the empty string, as the real check does.
- CustomButtonModal.ButtonStore.SaveButton: the button form's Zod checks (URL, e-mail and the style and size enums) are not modelled. saveButton is modelled for any values that reach it.
- MenuItemModal.MenuItemForm: setting the text, page link and URL inputs are plain field assignments and are not modelled.
- Storage.MemStorage.constructor: the three seeded pages share one timestamp `now`, whereas each `createPage` call reads the clock itself. The model covers only the run where the three readings agree.
- Storage.MemStorage.constructor: the HTML bodies of the three default pages are parameters. The file-backed page service's defaults carry the exact HTML.
- JavaScript `undefined` inside an update body is not modelled. JSON bodies cannot carry it, so a key is either absent (`None`) or present.
- The page lookup in the custom button list and the menu item dialog's page picker only read data, so they are not modelled.

## Findings

| source | as written | input that shows it | evidently intended | confidence | as-written member | corrected member |
|---|---|---|---|---|---|---|
| client/src/components/admin/PageModal.tsx:160-169 | the new title is stored at line 162 before line 165 checks whether the slug still follows the title, so the slug is compared with the slug of the new title | a new page, typing "A" then "Ab": the slug becomes "a" and then stays "a" | the slug keeps following the title until it is edited by hand (compare with the previous title's slug) | not executed; high, from the order of the two statements | PageModal.TitleChangeStopsFollowing | PageModal.AutoSlugFollows |
| client/src/components/admin/MenuItemModal.tsx:36-42 | `externalUrl` must be null or a URL for every type, but the new-item form and the switch to the internal tab put "" there, and the field is hidden under that tab | a new internal item with text "Blog" and page "blog": submission stops at the check | the URL is checked only for the types that send it | not executed; medium, it rests on Zod's URL check rejecting "" | MenuItemModal.NewInternalItemBlocked | MenuItemModal.SubmitsWeakensOnlyInternal |
| client/src/components/admin/MenuItemModal.tsx:156-159 | the type is promoted to iframe only from "external"; an iframe item opens with type "iframe" under the external tab, so clearing the box does not change the type sent | edit an iframe item, clear "Abrir no iframe", save: the item stays iframe | under the external tab the box alone chooses iframe or external | not executed; high, the box is shown ticked and the type ignores it | MenuItemModal.UncheckKeepsIframe | MenuItemModal.IntendedAgreesOutsideUncheck |
