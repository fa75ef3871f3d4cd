# Product admin console — a Dafny model

This project models the core of a React admin console for an online shop's
product catalogue (`src/App.tsx`). The console signs an operator in with a
session token kept in the `hexToken` cookie. It lists products page by page.
It creates and edits products through a modal form, and deletes them with a
button on each row after a confirmation dialog. It uploads a main image for
the product being edited.

The model has four modules:

- `Wrappers` holds `Option`, which stands for JavaScript's `undefined` or `null`.
- `Strings` holds the text helpers the console relies on:
  - JavaScript's `split` with a non-empty separator, and `trim` with the
    ECMAScript white-space set;
  - the image-URL normaliser `value.split(',').map(trim).filter(nonEmpty)`;
  - the `hexToken` cookie lookup.
- `Catalog` holds the product record, the form's draft (`newProduct`), its
  empty constant, and the record updates the form handlers apply to the
  draft (`setNewProduct(prev => ...)`).
- `Admin` holds the component's state cells as the fields of the class
  `ProductAdmin`. Each event handler is a method. The product API's answers
  are method parameters, and the requests the console sends are results.

The central invariant is `ProductAdmin.Valid()`:

- the image previews mirror their URL fields;
- no product id is kept outside edit mode;
- whenever the form modal is closed, the form is `ClosedForm`: the empty
  draft, not editing, and no id.

Every handler that changes the form keeps this invariant. As a result, the
"new product" button always opens an empty form in create mode, and the
submit button sends a create exactly when not editing.

Behaviour of the code worth knowing, as modelled:

- After a successful create, update or delete, the list is fetched again
  from page 1 (`getData()` with its default). `currentPage` is left as it
  was, so the pager can highlight a page other than the one shown.
- A page change is not range-checked and not deduplicated. Answers carry no
  request sequence number, so the last answer to arrive wins.
- A successful create does not reset `isEditing` or `editingId`. The
  invariant shows they are already clear in create mode.
- The "other images" textarea shows the normalised list and normalises it
  again on every change. A comma typed at the end of the list is therefore
  swallowed and the draft does not change (`TrailingCommaSwallowed`). A new
  URL cannot be typed after a separator character by character; it has to
  be pasted or typed in one piece.
- A transport error and an answer with `success: false` leave the state
  alone in the same way. Both are the parameter value `succeeded = false`.

## Model

| member | source | states |
|---|---|---|
| Strings.Trim | src/App.tsx:208 | the result has no leading or trailing white space; it is the input with only white space cut from both ends, starting at the first non-space; it is empty exactly when the input is all white space |
| Strings.TrimKeepsTrimmed | src/App.tsx:208 | trimming a trimmed string changes nothing |
| Strings.TrimSkipsLeading | src/App.tsx:208 | a leading white-space character does not change the trimmed result |
| Strings.Split | src/App.tsx:208 | splitting always yields at least one piece, and joining the pieces with the separator gives back the input |
| Strings.SplitPiecesAvoidSeparator | src/App.tsx:116-119 | no piece of a split contains the separator |
| Strings.SplitAroundChar | src/App.tsx:208 | splitting `a + [c] + b` on `c` is the split of `a` followed by the split of `b` |
| Strings.SplitFirstPiece | src/App.tsx:119 | the first piece of a one-character split is a prefix without that character, followed by the character or the end of the input |
| Strings.TrimEach | src/App.tsx:208 | the `map(url => url.trim())` step: one result per piece, each the trimmed piece at the same position |
| Strings.DropEmpty | src/App.tsx:208 | the `filter(url => url)` step: a string is kept exactly when it is in the input and non-empty, as often as it occurs there; with `DropEmptyOfOne` and `DropEmptyAppend` this fixes the result, in input order, on every input |
| Strings.DropEmptyOfOne | src/App.tsx:208 | a single string is kept exactly when it is non-empty |
| Strings.DropEmptyAppend | src/App.tsx:208 | filtering a concatenation filters each part, keeping the input order |
| Strings.Join | src/App.tsx:716 | `Array.prototype.join`; it has no contract of its own, and the contract of `Split` makes it a left inverse of `Split` (`Join(Split(s, sep), sep) == s`), and `SplitImageUrlsOfJoin` gives the other direction for the textarea: the normaliser reads a clean list back from its display |
| Strings.SplitImageUrls | src/App.tsx:208 | the normaliser `split(',').map(trim).filter(nonEmpty)`; it has no contract of its own, and its partner lemmas state it: `SplitImageUrlsAreClean` (every URL is clean), `SplitImageUrlsOfOne` and `SplitImageUrlsAround` (together they determine it on every input), `SplitImageUrlsOfJoin` and `SplitImageUrlsIdempotent` (the round trip through the display) |
| Strings.SplitImageUrlsAreClean | src/App.tsx:206-213 | every URL the normaliser keeps is non-empty, trimmed and free of commas |
| Strings.SplitImageUrlsAround | src/App.tsx:208 | normalising `a + "," + b` gives the URLs of `a` followed by those of `b`, in order |
| Strings.SplitImageUrlsOfOne | src/App.tsx:208 | a comma-free value gives no URL when it is all white space, and otherwise exactly its trimmed self |
| Strings.SplitImageUrlsOfJoin | src/App.tsx:713-718 | normalising the textarea's display `urls.join(', ')` of a clean list gives back that list |
| Strings.SplitImageUrlsIdempotent | src/App.tsx:208 | normalising the display of a normalised value gives the same URLs again |
| Strings.FindRow | src/App.tsx:116-118 | `find` returns the first cookie row with the prefix, and none when no row has it |
| Strings.CookieToken | src/App.tsx:116-124 | no token when no row starts with `hexToken=`; otherwise the token is the non-empty text between `hexToken=` and the next `=` of the first such row, and an empty one counts as no token |
| Catalog.WithImage | src/App.tsx:199-205 | the main image URL and its preview both become the given URL and nothing else changes; the upload (lines 394-399) and the "remove" button (lines 680-684) apply the same update |
| Catalog.WithEnabled | src/App.tsx:625-656 | the radio buttons set `is_enabled` to 1 or 0 and nothing else changes |
| Catalog.WithText | src/App.tsx:214-219 | a plain input stores its text as typed under its own key and nothing else changes |
| Catalog.WithNumber | src/App.tsx:214-219 | a number input stores the coerced number under its own key and nothing else changes |
| Catalog.WithImages | src/App.tsx:206-213 | the image list and its preview both become the given list and nothing else changes |
| Catalog.WithInput | src/App.tsx:196-221 | each input name updates its own key, or both image-list keys with the normalised list, and no other key; the previews stay in sync |
| Catalog.DraftOf | src/App.tsx:269-282 | the edit draft copies every product field, reads a missing unit, description or content as "" and missing images as [], and its previews are in sync |
| Catalog.RetypingImagesUrlChangesNothing | src/App.tsx:713-718 | feeding the textarea's own display back into it leaves a draft unchanged when its previews are in sync and its image list is clean (every URL non-empty, trimmed and comma-free); a draft seeded from server data by `handleEdit` (line 279) may hold a list that is not clean, and the first change of the `imagesUrl` textarea then cleans it (`TextareaChangeCleans`), while a change of any other input keeps it |
| Catalog.TextareaChangeCleans | src/App.tsx:206-213 | after any change of the `imagesUrl` textarea the image list is clean, whatever the draft held before |
| Catalog.TrailingCommaSwallowed | src/App.tsx:713-718 | typing a comma after the textarea's display of a clean, in-sync list leaves the draft unchanged |
| Catalog.WithInputKeepsUrlsClean | src/App.tsx:196-221 | every field change keeps the image list clean |
| Admin.ProductAdmin.Valid | src/App.tsx:33-51 | the console's invariant over `newProduct`, `showModal`, `isEditing` and `editingId`: previews mirror their URL fields, no id outside edit mode, and a closed modal means the form is `ClosedForm` (the `EmptyDraft` of lines 33-46, not editing, no id); the constructor establishes it, every handler keeps it, and the resets of lines 158-181, 297-322 and 337-355 restore it |
| Admin.ProductAdmin.PendingSave | src/App.tsx:533 | the submit sends an update of `editingId` exactly in edit mode, and a create otherwise, carrying the draft |
| Admin.ProductAdmin.constructor | src/App.tsx:18-55 | the initial state is signed out, with no products, no pagination, page 1, the closed form whose draft is `EmptyDraft` (lines 33-46), and the invariant holding |
| Admin.ProductAdmin.CheckLoginStatus | src/App.tsx:112-145 | the session check signs in and fetches page 1 exactly when the cookie holds a token and the check succeeds; otherwise it signs out |
| Admin.ProductAdmin.SignIn | src/App.tsx:82-109 | any answer signs in and fetches page 1; a failed request (`answered` is false) changes nothing; the invariant is kept |
| Admin.ProductAdmin.ApplyPage | src/App.tsx:58-69 | an answer replaces the product list (an absent list reads as []) and the pagination; a failed request keeps both |
| Admin.ProductAdmin.ChangePage | src/App.tsx:423-426 | the page is recorded and fetched as given |
| Admin.ProductAdmin.OpenNewProduct | src/App.tsx:437-440 | opening a closed modal gives an empty form in create mode, whose submit would be a create of the empty draft |
| Admin.ProductAdmin.Edit | src/App.tsx:266-284 | the form opens in edit mode on the product's id and draft, and its submit would be an update of that product |
| Admin.ProductAdmin.CloseModal | src/App.tsx:337-355 | the form goes back to `ClosedForm`, from any state |
| Admin.ProductAdmin.ChangeField | src/App.tsx:196-221 | the draft becomes the field update of its previous value, and the invariant is kept |
| Admin.ProductAdmin.ChooseEnabled | src/App.tsx:625-656 | the draft gets `is_enabled` 1 or 0, and the invariant is kept |
| Admin.ProductAdmin.RemoveImage | src/App.tsx:676-688 | the main image and its preview are cleared, and the invariant is kept |
| Admin.ProductAdmin.UploadImage | src/App.tsx:358-420 | nothing is sent without a file or a cookie token; the token is the one sent; only a successful answer with a non-empty URL sets the main image and its preview |
| Admin.ProductAdmin.Submit | src/App.tsx:148-193 | the request sent is the pending save (a create here, the update of lines 287-334 in edit mode); success fetches page 1 and closes the form to `ClosedForm`; failure leaves the form as it was |
| Admin.ProductAdmin.Delete | src/App.tsx:224-263 | the delete of that id is sent exactly when confirmed, and page 1 is fetched exactly when it also succeeds |
| Admin.ProductAdmin.ShowDetail | src/App.tsx:491-495 | the detail modal opens on the product |
| Admin.ProductAdmin.CloseDetail | src/App.tsx:770-775 | the detail modal closes |
| Admin.ProductAdmin.EditFromDetail | src/App.tsx:870-876 | the shown product opens in the edit form and the detail modal closes |
| Admin.CloseModalTwice | src/App.tsx:337-355 | closing the form twice leaves it as closing it once: the form is `ClosedForm`, and no state cell outside the form changes |

## Left out

- The HTTP transport is left out: axios, the URL building from `API_BASE` and `API_PATH`, the multipart body, and the default `Authorization` header. Each answer is a parameter, and each request is a result.
- The SweetAlert notifications are left out. The delete confirmation dialog is the boolean `confirmed`.
- Rendering is left out: the JSX, the styling, and the pager's disabled previous/next buttons.
- Submit: the browser's `required` check on the form's inputs (src/App.tsx:545, 557, 569, 582, 593, 607, 618) is not modelled. The browser does not call the submit handler while a required input is empty, so a save of the empty draft cannot be sent from the rendered form. The model lets `Submit` run on any open form.
- Handlers are modelled as atomic steps. Interleavings of the asynchronous handlers are not captured: an upload that finishes after the modal has closed would write its URL into the closed form's draft, and page answers arriving out of order would show an older page.
- WithNumber, WithInput, ChangeField: JavaScript's `Number(value)` is the parameter `parse`. Its coercion rules, including `NaN` for text that is not a number, are not modelled.
- SignIn: the sign-in request with the login form (`formData`, `handleInputChange`) is not modelled, and neither is the cookie write with its `Date` expiry or the default header. The token's value feeds only those, so the model records only whether an answer arrived (`answered`).
- Logging to the console is left out.
- Strings are sequences of code points, whereas JavaScript strings are UTF-16 code units. `trim` and `split` on the separators used here agree on both readings.
- Product.isEnabled is an `int`: the source's `is_enabled as number` cast is taken as given.
- ChangeField accepts the names that `handleProductChange` handles. These are the form's inputs (title, category, unit, origin_price, price, description, content, imagesUrl) and also `imageUrl`. No rendered input carries the name `imageUrl`, since the main image is a file input, but that branch of the handler is modelled as written. The generic setter in the source would write any other key too, but no other name reaches it.
- Draft.originPrice, Draft.price, Product.originPrice, Product.price: these are JavaScript numbers, which may be fractional. The model takes them as `int`.
