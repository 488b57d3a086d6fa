# Steelcut Industries storefront: verified model of the front-end logic

This project models, in Dafny, the logic of the Steelcut Industries product catalog
front end. The views themselves are React components over a remote catalog API.
There are five pieces:

- **Blob references** (`blob_storage.dfy`, module `BlobStorage`).
  - An `ExternalBlob` may hold the bytes of a file, the content hash the storage service returned, both (after a successful `upload`, which keeps the bytes), or neither.
  - `fromURL` searches the whole URL with `/blob_hash=([^&]+)/`. It takes the leftmost `blob_hash=` followed by a character other than `&`, wherever it is: in the path or fragment, or as the tail of a longer key such as `myblob_hash=`. It then captures the run up to the next `&` and percent-decodes it, as `decodeURIComponent` does (module `Uri`).
  - `upload` puts the bytes once and keeps the hash. `getDirectURL` answers from the hash. `getBytes` returns the held bytes when there are any, and fetches the hash's direct URL only when there are none.
  - The process-wide storage client is built on first use and cached.
  - The configuration loader, the storage service and the network are not visible. A `Runtime` object carries their answers as arbitrary functions of the call number and arguments, and logs every `putFile` and `fetch` call. Every property therefore holds for every environment.
- **Catalog derivation** (`product_catalog.dfy`, module `ProductCatalog`).
  - The sorted list of distinct categories.
  - The products shown for a selected category and a search term: the category filter, then a case-insensitive substring search over name, description and category.
- **Image carousel** (`product_details.dfy`, module `ProductDetails`).
  - The `currentImageIndex` state cell: the forward and back arrows move it modulo the image count, and the dot and thumbnail buttons set it.
- **Admin panel** (`admin_panel.dfy`, module `AdminPanel`).
  - Access gating.
  - The product form: its initial fields, required-field validation, removing an image, uploading several images at once, and the add-versus-update call made on submit.
  - The dialog state of the panel.
- **Profile setup gate** (`user_profile_setup.dfy`, module `UserProfileSetup`).
  - When the first-login dialog opens.
  - How the name is validated and trimmed before it is saved.

Supporting modules:

| module | contents |
|---|---|
| `Wrappers` | `Option` and `Result` |
| `Text` | JavaScript `trim` with its white-space set, ASCII lower-casing, `includes` |
| `Uri` | `decodeURIComponent` and `encodeURIComponent` over UTF-8 |
| `Backend` | the `Product`, `Specifications` and `UserProfile` records of the catalog API |

JavaScript truthiness is kept wherever the code tests it:

- A hash of `""` counts as absent in `upload`, `getDirectURL` and `getBytes`.
- A byte array counts as present even when it is empty.
- A category selection of `null` or `""` applies no filter.
- The delete dialog is open only for a non-empty id.
- An `isAdmin` that has not been answered yet denies access.

A reference may hold neither bytes nor hash: `fromURL` on a URL where the pattern does not match yields one. `getBytes` then fails with "No bytes or hash available", and `upload` with "No bytes to upload".

The carousel index is not reset when the product changes. `ProductDetails.ShownImage` therefore also covers an index past the end, where the page would read `undefined`.

## Model

| member | source | states |
|---|---|---|
| BlobStorage.FindMatch | src/src/frontend/src/utils/blobStorage.ts:41 | the regular expression's match position is the leftmost position where `blob_hash=` is followed by a character other than `&`; none exists when the result is None |
| BlobStorage.ValueRun | src/src/frontend/src/utils/blobStorage.ts:41 | the captured group `[^&]+` is the longest prefix without `&`: it stops at the first `&` or at the end |
| BlobStorage.HashParam | src/src/frontend/src/utils/blobStorage.ts:41-42 | a match always captures a non-empty value |
| BlobStorage.HashOfURLIsTruthy | src/src/frontend/src/utils/blobStorage.ts:39-46 | a URL without a match leaves the hash absent; a decoded hash is never empty, so it never counts as absent |
| BlobStorage.HashOfIssuedURL | src/src/frontend/src/utils/blobStorage.ts:41-43 | a URL carrying the percent-encoding of a non-empty hash h as its first `blob_hash` parameter, ended by `&` or the end of the URL, yields exactly h |
| Uri.DecodeEncode | src/src/frontend/src/utils/blobStorage.ts:43 | `decodeURIComponent(encodeURIComponent(s)) == s` for every string |
| Uri.EncodeHasNoAmpersand | src/src/frontend/src/utils/blobStorage.ts:41-43 | an encoded value contains no `&`, so the parameter capture cannot cut it short |
| BlobStorage.ExternalBlob.FromURL | src/src/frontend/src/utils/blobStorage.ts:39-46 | a fresh reference with no bytes and no callback, whose hash is the decoded parameter (absent without a match); a malformed escape is the URIError `decodeURIComponent` throws |
| BlobStorage.ExternalBlob.FromBytes | src/src/frontend/src/utils/blobStorage.ts:48-52 | the reference holds exactly the given bytes, no hash and no callback |
| BlobStorage.ExternalBlob.WithUploadProgress | src/src/frontend/src/utils/blobStorage.ts:54-57 | only the callback changes, and the same reference is returned |
| BlobStorage.BytesOfResponse | src/src/frontend/src/utils/blobStorage.ts:65-70 | the bytes are the body exactly when the response is ok; a response that is not ok fails with its status text |
| BlobStorage.ExternalBlob.GetBytes | src/src/frontend/src/utils/blobStorage.ts:59-73 | held bytes are returned with no fetch; with only a hash, the storage client is loaded as `getStorageClient` does, then one fetch of the hash's direct URL, failing on a response that is not ok; with neither, "No bytes or hash available" |
| BlobStorage.ExternalBlob.GetDirectURL | src/src/frontend/src/utils/blobStorage.ts:75-81 | without a truthy hash, "blob not uploaded yet" and no service touched; otherwise the storage client is loaded as `getStorageClient` does, and the answer is that client's direct URL for the hash |
| BlobStorage.ExternalBlob.Upload | src/src/frontend/src/utils/blobStorage.ts:83-94 | a truthy hash is returned with no call to putFile; no bytes gives "No bytes to upload"; otherwise the storage client is loaded as `getStorageClient` does, then exactly one putFile of the held bytes with the attached callback, and its hash is stored and returned |
| BlobStorage.UploadTwice | src/src/frontend/src/utils/blobStorage.ts:84-86 | after an upload that produced a non-empty hash, a second upload returns the same hash, and putFile ran at most once over both |
| BlobStorage.Runtime.GetStorageClient | src/src/frontend/src/utils/blobStorage.ts:5-30 | a cached client is returned with nothing changed; otherwise the configuration is loaded once (one more load) and the client of the configuration that load yields is built and cached, or nothing is cached on failure; at most one client is ever built |
| BlobStorage.Runtime.PutFile | src/src/frontend/src/utils/blobStorage.ts:91 | the call is logged with its bytes and callback, and its answer is the service's |
| BlobStorage.Runtime.Fetch | src/src/frontend/src/utils/blobStorage.ts:65 | the request is logged, and its answer is the network's |
| BlobStorage.ImageURLOf | src/src/frontend/src/utils/blobStorage.ts:103-104 | an upload gives a URL exactly when putFile returned a non-empty hash, and the URL is that hash's direct URL |
| BlobStorage.UploadImage | src/src/frontend/src/utils/blobStorage.ts:97-105 | the storage client is loaded as `getStorageClient` does; then exactly one putFile of the file's bytes with the given callback, and the answer is the direct URL of the hash it returned |
| BlobStorage.StepAsWritten | src/src/frontend/src/utils/blobStorage.ts:7-28 | one step of overlapping getStorageClient calls as written: at most one client is built per step, and a cached client stays cached |
| BlobStorage.OverlappingCallsBuildTwice | src/src/frontend/src/utils/blobStorage.ts:7-28 | two calls that start before either load resolves build two clients |
| BlobStorage.StepCorrected | src/src/frontend/src/utils/blobStorage.ts:7-28 | with the pending load cached, a built client with no load pending never changes |
| BlobStorage.CorrectedBuildsOnce | src/src/frontend/src/utils/blobStorage.ts:7-28 | however the calls interleave, the corrected memo builds at most one client, and a load is pending only while none is cached |
| BlobStorage.CorrectedOverlapBuildsOnce | src/src/frontend/src/utils/blobStorage.ts:7-28 | the interleaving that builds two clients as written builds one when corrected |
| ProductCatalog.LessTotal | src/src/frontend/src/pages/ProductCatalog.tsx:19 | the default sort order is total on distinct strings (with LessIrreflexive, LessTransitive and LessAsymmetric, a strict total order) |
| ProductCatalog.LessIrreflexive | src/src/frontend/src/pages/ProductCatalog.tsx:19 | no string sorts before itself |
| ProductCatalog.LessTransitive | src/src/frontend/src/pages/ProductCatalog.tsx:19 | the sort order is transitive |
| ProductCatalog.LessAsymmetric | src/src/frontend/src/pages/ProductCatalog.tsx:19 | two strings never sort before each other |
| ProductCatalog.StrictlySortedDistinct | src/src/frontend/src/pages/ProductCatalog.tsx:18-19 | a strictly sorted list has no repeated element |
| ProductCatalog.Insert | src/src/frontend/src/pages/ProductCatalog.tsx:18-19 | adding a category to a sorted set keeps it strictly sorted, with exactly the old elements and the new one |
| ProductCatalog.Categories | src/src/frontend/src/pages/ProductCatalog.tsx:17-20 | the category list is strictly sorted, so each category appears once, and it contains exactly the categories of the products |
| ProductCatalog.SortedUnique | src/src/frontend/src/pages/ProductCatalog.tsx:17-20 | two strictly sorted lists with the same elements are equal, so the category list is determined by the set of categories |
| ProductCatalog.FilterMembers | src/src/frontend/src/pages/ProductCatalog.tsx:26-36 | `filter` keeps an element exactly when it is in the list and meets the condition |
| ProductCatalog.FilterIsSubsequence | src/src/frontend/src/pages/ProductCatalog.tsx:26-36 | `filter` yields a subsequence: positions strictly increasing, order kept |
| ProductCatalog.FilterTwice | src/src/frontend/src/pages/ProductCatalog.tsx:23-39 | filtering by one condition and then another equals filtering once by both |
| ProductCatalog.FilteredProductsIsFilter | src/src/frontend/src/pages/ProductCatalog.tsx:22-40 | the two filters in sequence equal one filter by "meets every active condition" |
| ProductCatalog.FilteredProductsMembers | src/src/frontend/src/pages/ProductCatalog.tsx:22-40 | soundness and completeness: a product is shown exactly when it is in the catalog and meets the selected category (if any) and the search (if not blank) |
| ProductCatalog.FilteredProductsInOrder | src/src/frontend/src/pages/ProductCatalog.tsx:22-40 | the shown products are a subsequence of the catalog, in its order |
| ProductCatalog.FilteredProductsMatch | src/src/frontend/src/pages/ProductCatalog.tsx:25-36 | with a non-empty category selected, every shown product has it; with a non-blank term, every shown product's lower-cased name, description or category contains the lower-cased, untrimmed term |
| ProductCatalog.UnfilteredShowsAll | src/src/frontend/src/pages/ProductCatalog.tsx:23-39 | with no (or an empty) category and a blank term, all products are shown, in order |
| ProductCatalog.BlankSearchIgnored | src/src/frontend/src/pages/ProductCatalog.tsx:29 | a search term of white space only filters nothing |
| Text.TrimEmptyIffBlank | src/src/frontend/src/pages/ProductCatalog.tsx:29 | `trim()` yields "" exactly when the string is all white space |
| ProductDetails.Next | src/src/frontend/src/pages/ProductDetails.tsx:25-29 | the forward step stays in [0, n): one place on, or back to 0 from the last image |
| ProductDetails.Prev | src/src/frontend/src/pages/ProductDetails.tsx:31-35 | the backward step stays in [0, n): one place back, or to the last image from 0 |
| ProductDetails.PrevNext | src/src/frontend/src/pages/ProductDetails.tsx:25-35 | back after forward restores any index in range |
| ProductDetails.NextPrev | src/src/frontend/src/pages/ProductDetails.tsx:25-35 | forward after back restores any index in range |
| ProductDetails.Advance | src/src/frontend/src/pages/ProductDetails.tsx:25-29 | after one or more forward presses the index is in range |
| ProductDetails.AdvanceWraps | src/src/frontend/src/pages/ProductDetails.tsx:25-29 | k ≤ n forward presses move an in-range index k places round the cycle |
| ProductDetails.FullCycle | src/src/frontend/src/pages/ProductDetails.tsx:25-29 | n forward presses return to the starting image |
| ProductDetails.ButtonsFollowIndex | src/src/frontend/src/pages/ProductDetails.tsx:88-145 | with two or more images and the index on image i: the set of highlighted dots is exactly {i}, the highlighted thumbnails are {i} when i < 4 and none otherwise, and the main view shows images[i] |
| ProductDetails.ArrowsMoveHighlight | src/src/frontend/src/pages/ProductDetails.tsx:25-35 | after a forward or backward step from an image in range, exactly the dot of the new image is highlighted, its thumbnail is when it is among the first four, and that image is shown |
| ProductDetails.ImageCarousel.constructor | src/src/frontend/src/pages/ProductDetails.tsx:15 | the index starts at 0 |
| ProductDetails.ImageCarousel.NextImage | src/src/frontend/src/pages/ProductDetails.tsx:25-29 | with a product that has images, the index takes the forward step and an image is shown, and with two or more the highlighted dot and thumbnail follow it; otherwise the index is unchanged |
| ProductDetails.ImageCarousel.PrevImage | src/src/frontend/src/pages/ProductDetails.tsx:31-35 | with a product that has images, the index takes the backward step and an image is shown, and with two or more the highlighted dot and thumbnail follow it; otherwise the index is unchanged |
| ProductDetails.ImageCarousel.Select | src/src/frontend/src/pages/ProductDetails.tsx:111-145 | a thumbnail or dot click sets the index to its position; that dot alone is then highlighted, and that thumbnail alone when it is among the first four |
| AdminPanel.View | src/src/frontend/src/pages/AdminPanel.tsx:48-84 | the gating order: no identity gives the auth-required view, then loading, then access denied unless isAdmin is true, then the panel (each an if-and-only-if) |
| AdminPanel.DecimalString | src/src/frontend/src/pages/AdminPanel.tsx:247 | the edited price's text is never empty |
| AdminPanel.Digits | src/src/frontend/src/pages/AdminPanel.tsx:247 | decimal digits only, with no leading zero |
| AdminPanel.DigitsRoundTrip | src/src/frontend/src/pages/AdminPanel.tsx:247 | reading the digits back gives the price |
| AdminPanel.Submit | src/src/frontend/src/pages/AdminPanel.tsx:277-313 | rejected exactly when a required field is blank or the price is empty; otherwise update when editing (with the product's id) and add otherwise, with the fields as typed, an empty "additional" sent as absent, and the current images |
| AdminPanel.UntouchedAddFormRejected | src/src/frontend/src/pages/AdminPanel.tsx:244-283 | an add form submitted untouched makes no call |
| AdminPanel.UnchangedEditResubmits | src/src/frontend/src/pages/AdminPanel.tsx:244-313 | an edit form submitted as opened updates the same product with its own fields and images, except that an "additional" of "" becomes absent |
| AdminPanel.RemoveAt | src/src/frontend/src/pages/AdminPanel.tsx:273-275 | removing by index drops one element exactly when the index is in range |
| AdminPanel.RemoveAtIsSplice | src/src/frontend/src/pages/AdminPanel.tsx:273-275 | removeImage(k) removes exactly the element at k and keeps the rest in order; an index out of range changes nothing |
| AdminPanel.AllUploaded | src/src/frontend/src/pages/AdminPanel.tsx:261-262 | `Promise.all`: all URLs, in file order, exactly when every upload succeeded |
| AdminPanel.ProductForm.constructor | src/src/frontend/src/pages/AdminPanel.tsx:244-253 | the form starts with the initial fields and images, not uploading, with no call made |
| AdminPanel.ProductForm.SetFields | src/src/frontend/src/pages/AdminPanel.tsx:330 | an input's change sets the fields |
| AdminPanel.ProductForm.RemoveImage | src/src/frontend/src/pages/AdminPanel.tsx:273-275 | the images lose exactly the one at k, or stay as they are when k is out of range |
| AdminPanel.ProductForm.HandleImageUpload | src/src/frontend/src/pages/AdminPanel.tsx:255-271 | an empty selection changes nothing; no fetch is ever made; otherwise every file is uploaded in order; if all succeed their URLs are appended after the existing images in file order, and if any fails the images are unchanged; uploading ends false; when a client is cached or the first load succeeds, one putFile per file in order, each outcome the direct URL of its own answer |
| AdminPanel.ProductForm.HandleSubmit | src/src/frontend/src/pages/AdminPanel.tsx:277-313 | a rejected form makes no call; otherwise exactly the add or update call `Submit` describes |
| AdminPanel.PanelDialogs.constructor | src/src/frontend/src/pages/AdminPanel.tsx:44-46 | every dialog starts closed |
| AdminPanel.PanelDialogs.SetAddDialogOpen | src/src/frontend/src/pages/AdminPanel.tsx:93-111 | the add dialog opens and closes as asked |
| AdminPanel.PanelDialogs.Edit | src/src/frontend/src/pages/AdminPanel.tsx:141 | Edit opens the edit dialog on that product |
| AdminPanel.PanelDialogs.CloseEdit | src/src/frontend/src/pages/AdminPanel.tsx:148-161 | closing, success or cancel clears the edited product and closes its dialog |
| AdminPanel.PanelDialogs.AskDelete | src/src/frontend/src/pages/AdminPanel.tsx:142 | the delete dialog opens on that id, and only when the id is not empty |
| AdminPanel.PanelDialogs.CloseDelete | src/src/frontend/src/pages/AdminPanel.tsx:167-171 | closing clears the id to delete |
| AdminPanel.PanelDialogs.ConfirmDelete | src/src/frontend/src/pages/AdminPanel.tsx:500-530 | with no truthy id nothing happens; otherwise exactly one delete call for that id, and the dialog closes whatever the deletion's outcome |
| UserProfileSetup.OnlyNullProfileShows | src/src/frontend/src/components/UserProfileSetup.tsx:22-23 | a profile not loaded yet (undefined), or an existing one, never opens the dialog; a null profile opens it exactly when signed in, done loading and fetched |
| UserProfileSetup.SaveRequest | src/src/frontend/src/components/UserProfileSetup.tsx:26-32 | no save exactly when the name is blank; otherwise the saved name is the trimmed input, non-empty and without white space at either end |
| UserProfileSetup.SaveRequestStable | src/src/frontend/src/components/UserProfileSetup.tsx:32 | saving the saved name again would save the same profile |
| Text.TrimIdempotent | src/src/frontend/src/components/UserProfileSetup.tsx:32 | trimming twice is trimming once |
| UserProfileSetup.ProfileSetup.constructor | src/src/frontend/src/components/UserProfileSetup.tsx:20 | the name starts empty, with no save made |
| UserProfileSetup.ProfileSetup.SetName | src/src/frontend/src/components/UserProfileSetup.tsx:55 | typing sets the name |
| UserProfileSetup.ProfileSetup.HandleSave | src/src/frontend/src/components/UserProfileSetup.tsx:25-38 | a blank name makes no save call; otherwise exactly one, with the trimmed name |
| UserProfileSetup.ProfileSetup.OnKeyDown | src/src/frontend/src/components/UserProfileSetup.tsx:58-62 | Enter has exactly HandleSave's effect; other keys do nothing |

## Left out

- I/O: what `loadConfig`, the storage service's `putFile` and `getDirectURL`, and `fetch` answer is not modelled. Each is an arbitrary function of the call number and its arguments held by `Runtime`. `getDirectURL` is taken to give the same URL for the same hash.
- The `HttpAgent` and `fetchRootKey` on development hosts are foreign SDK calls. The model only counts the root-key fetch, in a ghost field, and the storage client keeps only its configuration.
- Upload progress: a callback is known only by its identity. When and with what percentages the service calls it is not modelled.
- `File.arrayBuffer` is not modelled: `uploadImage` and `handleImageUpload` receive each file's bytes directly.
- Text.ToLower: only ASCII letters are folded, one character for one. `toLowerCase` also folds the rest of Unicode, and some of its mappings change the length (U+0130 becomes `i` followed by U+0307). So for other letters the search is case-sensitive in the model.
- ProductCatalog.Less: code points are compared. The default `sort` compares UTF-16 code units, which orders characters above U+FFFF differently from some characters in U+E000–U+FFFF.
- AdminPanel.Submit: the browser's built-in form validation is not modelled: the `required` inputs, and the price input's `type="number"` with `min="0"` and its default step of 1. The browser blocks the submit event when these fail, so text such as "-5" or "1.5" never reaches `handleSubmit`. The model describes `handleSubmit` once the browser has let the submit through.
- AdminPanel.Submit: carries the price as the text typed. `BigInt(Math.round(parseFloat(price)))` is floating-point code and is not modelled, including the RangeError it throws on text that parses to a non-finite number.
- AdminPanel.DecimalString: does not model the loss of precision of `Number(price)` above 2^53, nor the exponent notation `toString` uses from 10^21.
- AdminPanel.ProductForm.HandleImageUpload: the uploads of `Promise.all` run one after another in file order. The link from each outcome to its `putFile` answer is stated only when a client is cached before the call or the first configuration load succeeds. When that first load fails, later files load again, and only the all-or-nothing, in-order append is stated. The `uploading` flag is observed only after the call.
- Overlapping `getStorageClient` calls are modelled only as the event system of the finding below. `Runtime.GetStorageClient` describes calls that do not overlap, where the code as written and the corrected memo agree.
- What happens after a call is made is not modelled:
  - the asynchronous outcome of the catalog API's mutations;
  - toasts;
  - `isPending` disabling the submit, delete and save buttons. Pressing Enter in the profile dialog is not disabled while a save is pending.
- Rendering: JSX, skeletons, CSS classes and `Intl.NumberFormat` price formatting.
- AdminPanel.PanelDialogs.ConfirmDelete: the alert dialog's action button closes the dialog after its click handler runs. `@/components/ui/alert-dialog` is not part of this model; the close is modelled as the conventional Radix `AlertDialog.Action` behaviour.
- `useQueries.ts`: thin wrappers over the remote actor.
- `App.tsx`: routing, the theme toggle and the login retry timer.
- `backend.d.ts`: type declarations only. Its records are reproduced in `Backend`.

## Findings

| source | as written | input that shows it | evidently intended | confidence | as-written member | corrected member |
|---|---|---|---|---|---|---|
| src/src/frontend/src/utils/blobStorage.ts:7-28 | `getStorageClient` tests the cache, awaits `loadConfig`, and only then fills the cache, so every call that starts before the first load resolves loads the configuration and builds a client of its own | `handleImageUpload` with two files selected before any client exists: both `uploadImage` calls start, both find no client, and both build one (Start, Start, Resume, Resume) | the client is built once per process, as the memo intends; the pending load is cached, so later calls wait for it | medium; not executed | BlobStorage.OverlappingCallsBuildTwice | BlobStorage.CorrectedBuildsOnce |
