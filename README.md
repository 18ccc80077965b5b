# Five Flask applications, modelled in Dafny

The repository holds five small Flask web applications. Under the routing,
templates and storage of each sits a small body of table or list logic, and
that logic is what this project models and proves things about:

- **Marketplace** (`prj/app.py`, module `Marketplace`): users with a role
  (`buyer`, `brand`, `admin`), brands owned by users, products of brands, and
  cart rows. The tables are sequences held by the class `Store`; every
  state-changing route is a method of it that answers an `Outcome` in place of
  the redirect and flash message. It covers the `role_required` guard, the
  ownership checks, the catalogue listing (filter and `ORDER BY`), the cart
  upsert with clamping to stock, owner-only cart removal and the cart total.
- **Upload registry** (`flask2/app.py`, module `Uploads`): the extension
  allow-list, the storage path sharded by the first four characters of the
  generated name, and the duplicate-by-digest scan over the in-memory list,
  followed by an append (class `Registry`).
- **User registry** (`prk3.py`, module `Accounts`): the weak-password rule, and
  a dictionary keyed by user name that registration extends and login stamps
  (class `Registry`).
- **Blog** (`prk4.py`, module `Blog`): the visibility filter and newest-first
  order of the index page, post creation and editing (class `Blog`).
- **Phone numbers** (`flask1/app.py`, module `PhoneNumbers`): the loop that
  collects 1000 distinct numbers `89xxxxxxxxx` and sorts them, and the page that
  echoes its `number` parameter.

Three shared modules stand for library behaviour the applications rely on:
`Tables` (an `Option` type and the first-match lookup behind `.first()`,
`get_or_404` and `dict.get`), `Text` (Python's `str.strip`, SQLite's `lower`
and `LIKE`, `os.path.splitext`, Python's string order) and `Sorting` (a sort by
a triple of integer keys, proved sorted and a permutation).

Opaque things are inputs: the session's user id, password hashes and the
password check, `uuid.uuid4()`, the md5 digest, the clock, and the random
digits of the phone-number generator (a finite stream).

The model follows the code, including these easily missed behaviours:

- The catalogue listing with `sort_price=asc` or `desc` orders by price first;
  the "out of stock last" rule only breaks ties there, because SQLAlchemy
  appends the later `order_by` keys (`PriceSortOutranksStock` shows a
  product with no stock ahead of one with stock).
- The stock flag is `quantity_available == 0`, so a product whose stock was
  edited to a negative number sorts with the products in stock.
- `ilike` on SQLite is `lower(title) LIKE lower('%search%')`: `%` and `_`
  typed into the search box are wildcards. For search text without them the
  filter is a substring test (`SearchIsSubstring`).
- A blog post is private when the `is_private` field is present **and not
  empty** (`bool(request.form.get(...))`), not merely present.
- `create_product` accepts any existing brand id, not only the caller's.
- A logo or image part with an empty file name is falsy (`if logo_file:`), so
  it saves nothing and the current logo or image stays (`NewFileName`). A saved
  name keeps the extension in the case the client sent it, unlike the upload
  service, which lowers it.

## Model

| member | source | states |
|---|---|---|
| Tables.IndexOf | prj/app.py:427-429 | the first row satisfying the query, or none exactly when no row does |
| Text.TrimStart | prj/app.py:57 | the result is the suffix left after removing every leading whitespace character |
| Text.TrimEnd | prj/app.py:57 | the result is the prefix left after removing every trailing whitespace character |
| Text.Strip | prj/app.py:57 | `strip()` is a slice of the input with only whitespace cut from either end, has no whitespace at its ends, is empty exactly for all-whitespace input, and leaves whitespace-free input unchanged |
| Text.LowerChar | prj/app.py:68 | SQLite `lower` never yields an ASCII capital, turns each capital into its own small letter (32 code points on), changes exactly the capitals, yields a small ASCII letter exactly for ASCII letters, and keeps `%` and `_` (and only them) as wildcards |
| Text.AsciiLower | prj/app.py:68 | lowering keeps the length and lowers each character |
| Text.LikePrefix | prj/app.py:68 | a wildcard-free pattern followed by `%` matches exactly the texts with that prefix |
| Text.ContainsStep | prj/app.py:68 | a substring occurs at the start or in the tail |
| Text.LikeInfix | prj/app.py:68 | `%s%` with wildcard-free `s` matches exactly the texts containing `s` |
| Text.LastIndex | flask2/app.py:25 | the index of the last occurrence, or -1 when there is none |
| Text.Extension | flask2/app.py:25 | the extension is empty or a dot-led suffix of the name with no further dot or slash |
| Text.ExtensionHasStem | flask2/app.py:25 | a non-empty extension is preceded in the last path component by a character other than a dot |
| Text.ExtensionFromLastDot | flask2/app.py:25 | conversely, a last dot in the last component with a non-dot before it there starts the extension |
| Sorting.Insert | prj/app.py:76-79 | inserting into a sorted sequence keeps it sorted and adds exactly that element |
| Sorting.SortBy | prj/app.py:76-79 | the sorted result is ordered by the key and a permutation of the input |
| Sorting.SortedMembers | prj/app.py:76-79 | sorting neither adds nor drops elements |
| Sorting.SortedPair | prj/app.py:76-79 | a sorted two-element sequence whose keys differ lists the element with the smaller key first |
| Marketplace.MediaFileName | prj/app.py:148-149 | the saved name starts with the uuid; the rest is a suffix of the client's name, empty or a dot followed by characters that are neither dots nor slashes |
| Marketplace.MediaFileNameFromLastDot | prj/app.py:148-149 | when the client name's last component has a last dot after a non-dot stem character, the saved name is the uuid followed by the client name from that dot on, in the client's case |
| Marketplace.MediaFileNameWithoutDot | prj/app.py:148-149 | a client name without a dot is saved under the bare uuid |
| Marketplace.MediaFileNameExample | prj/app.py:148-149 | `logo.png` with uuid `u` is saved as `u.png` |
| Marketplace.CurrentUser | prj/app.py:48-50 | the session names a user exactly when a user with that id exists, and then that user |
| Marketplace.Login | prj/app.py:113-125 | a session starts exactly when the first user with that name passes the password check, and holds that user's id |
| Marketplace.Filter | prj/app.py:60-68 | each active product of the brand that matches the search is kept as often as stored, and no other product is |
| Marketplace.Listing | prj/app.py:55-79 | the listing holds each active product with the brand and the stripped search text as often as stored, no other, and is ordered by the query's keys |
| Marketplace.SearchIsSubstring | prj/app.py:67-68 | for search text without `%` or `_`, a title is kept exactly when its lowered form contains the lowered search |
| Marketplace.NoPriceSortOrder | prj/app.py:71-78 | without `asc`/`desc`, every product with stock other than 0 precedes every product with stock 0, ties in id order |
| Marketplace.PriceAscending | prj/app.py:71-78 | with `asc`, prices are non-decreasing and the stock flag then the id break ties |
| Marketplace.PriceDescending | prj/app.py:71-78 | with `desc`, prices are non-increasing and the stock flag then the id break ties |
| Marketplace.PriceSortOutranksStock | prj/app.py:71-78 | with `asc`, a cheaper product with no stock is listed before a dearer one in stock |
| Marketplace.Clamp | prj/app.py:432-434 | the merged quantity is the sum or the stock, whichever is smaller |
| Marketplace.CartAddWithinStock | prj/app.py:427-440 | an accepted add leaves exactly one row for (user, product), at most the stock, one row per pair and positive quantities |
| Marketplace.CartAddRows | prj/app.py:427-440 | the upsert keeps every row's id, owner and product, changes only the caller's row for the product and only in quantity, sets the first such row to min(old quantity + q, stock), and appends a row with the fresh id exactly when there was none |
| Marketplace.CartAddKeepsValid | prj/app.py:427-440 | an accepted add keeps the cart table's invariant and uses a new id only when it inserts |
| Marketplace.RepeatedAddsMerge | prj/app.py:427-440 | any run of accepted adds of one product leaves one row for it, never above the stock |
| Marketplace.ClampExample | prj/app.py:432-435 | adding 3 then 4 with stock 5 leaves one row of 5 |
| Marketplace.LoweredStockShrinksRow | prj/app.py:432-434 | after the stock is edited below a row's quantity (line 263), adding 1 shrinks the row to the stock |
| Marketplace.CartTotalDefined | prj/app.py:453-455 | the total fails exactly when one of the user's rows names a product that is gone, and is 0 without rows |
| Marketplace.CartTotalUpdate | prj/app.py:455 | changing one row's quantity shifts the total by price times the difference |
| Marketplace.CartTotalAppend | prj/app.py:455 | a new row of the user adds price times quantity; another user's row changes nothing |
| Marketplace.CartTotalRemove | prj/app.py:455 | removing a row of the user takes its price times quantity off the total |
| Marketplace.ProductsValidAppend | prj/app.py:234-242 | a new product with the next id keeps ids distinct and below the next id |
| Marketplace.CartValidRemove | prj/app.py:467 | deleting a cart row keeps the cart table's invariant |
| Marketplace.Store.constructor | prj/app.py:473-475 | the store starts with empty tables and the column defaults of the models |
| Marketplace.Store.Register | prj/app.py:92-108 | a taken username is refused with nothing changed; otherwise exactly one user with the default role is appended |
| Marketplace.Store.SeedAdmin | prj/app.py:476-480 | an `admin` user with role admin is added only when no user has that name |
| Marketplace.Store.CreateBrand | prj/app.py:137-163 | only role brand may create; the new brand is owned by the caller; a refusal changes nothing |
| Marketplace.Store.EditBrand | prj/app.py:168-188 | role brand and ownership are required; only name, description and logo of that brand change |
| Marketplace.Store.DeleteBrand | prj/app.py:193-205 | role brand and ownership are required; exactly that brand row is removed |
| Marketplace.Store.CreateProduct | prj/app.py:208-244 | anonymous is sent to log in, another role is forbidden, a caller owning no brand is sent to create one, an unknown brand is not found; any existing brand is accepted and one product is appended |
| Marketplace.Store.EditProduct | prj/app.py:249-274 | the brand's owner or an admin may edit; the stock is set as given; a missing brand is a server error; a refusal changes nothing |
| Marketplace.Store.DeleteProduct | prj/app.py:279-291 | same guard as editing; exactly that product row is removed and cart rows stay |
| Marketplace.Store.ChangeUserRole | prj/app.py:314-323 | an admin sets exactly that user's role |
| Marketplace.Store.AdminEditBrand | prj/app.py:334-353 | anonymous is sent to log in, a non-admin is forbidden, an unknown brand is not found; an admin edits any brand, changing only its name, description and logo |
| Marketplace.Store.AdminDeleteBrand | prj/app.py:358-366 | anonymous is sent to log in, a non-admin is forbidden, an unknown brand is not found; an admin removes exactly that brand row |
| Marketplace.Store.AdminEditProduct | prj/app.py:380-400 | an admin edits title, description, price and image; the change is kept even when the redirect then fails on a missing brand |
| Marketplace.Store.AdminDeleteProduct | prj/app.py:369-377 | anonymous is sent to log in, a non-admin is forbidden, an unknown product is not found; an admin removes exactly that product row |
| Marketplace.Store.AddToCart | prj/app.py:413-444 | only buyers; a quantity outside 1..stock changes nothing; otherwise the cart becomes the upsert with clamping |
| Marketplace.Store.RemoveFromCart | prj/app.py:459-470 | only the row's owner deletes exactly that row; otherwise nothing changes |
| Marketplace.Store.CartPage | prj/app.py:447-456 | anonymous is sent to log in, a non-buyer is forbidden, a row naming a missing product is a server error; otherwise the page shows the sum of price times quantity over the buyer's rows |
| Uploads.AllowedFileEnding | flask2/app.py:24-26 | an allowed name ends, up to case, in one of the six extensions, and that ending is its extension |
| Uploads.UpperCaseExtensionAllowed | flask2/app.py:24-26 | `report.PDF` is allowed: case is ignored |
| Uploads.LastDotDecides | flask2/app.py:24-26 | `photo.final.JpEg` is allowed: only the last part counts |
| Uploads.DoubleExtensionRefused | flask2/app.py:24-26 | `archive.tar.gz` is refused |
| Uploads.DotfileRefused | flask2/app.py:24-26 | `.txt` is refused: a leading dot does not start an extension |
| Uploads.BareNameRefused | flask2/app.py:24-26 | a name without a dot is refused |
| Uploads.Join | flask2/app.py:102 | joining an absolute component discards what came before |
| Uploads.JoinParts | flask2/app.py:102 | a relative component is appended after the first, with one separator between them exactly when the first is non-empty and does not end in one |
| Uploads.ForwardSlashes | flask2/app.py:122 | every backslash becomes a slash and nothing else changes |
| Uploads.FilePathParts | flask2/app.py:102-105 | for a separator-free name the saved path is the upload folder, the two shards and the name, each after one platform separator |
| Uploads.ForwardSlashesConcat | flask2/app.py:122 | the backslash replacement works character by character, so it distributes over concatenation |
| Uploads.ForwardSlashesPlain | flask2/app.py:122 | a string without separators is left unchanged |
| Uploads.RecordedPathLayout | flask2/app.py:102-122 | on either platform the recorded path is `uploads/<name[0:2]>/<name[2:4]>/<name>` |
| Uploads.AllowedExtensionsPlain | flask2/app.py:10 | none of the six extensions holds a path separator |
| Uploads.StoredNameHasNoSeparators | flask2/app.py:99 | the generated name has no separator and at least four characters |
| Uploads.Decision | flask2/app.py:86-114 | no file, then a disallowed extension, then a recorded digest, decide the answer in that order |
| Uploads.NewRecord | flask2/app.py:117-124 | the new record carries the generated name (the uuid and then the lowered extension), that extension, the original name, the time and the digest |
| Uploads.NewRecordPath | flask2/app.py:117-124 | the new record's path has the sharded layout |
| Uploads.StoringKeepsDigestsDistinct | flask2/app.py:110-125 | appending after a failed scan keeps the digests pairwise distinct |
| Uploads.SecondCopyRefused | flask2/app.py:110-114 | once stored, the same content under any allowed name is a duplicate |
| Uploads.ScanDigests | flask2/app.py:110-114 | the scan finds the digest exactly when some record carries it |
| Uploads.Registry.constructor | flask2/app.py:17-21 | the registry starts from the loaded list |
| Uploads.Registry.Upload | flask2/app.py:84-125 | refusals leave the list alone; a duplicate removes the saved file; success appends exactly the new record and keeps the file; distinct digests stay distinct |
| Accounts.EmptyPasswordNotBad | prk3.py:38-39 | the empty password is not bad, since `isdigit` and `isalpha` are false on it |
| Accounts.BadPasswordCases | prk3.py:38-39 | a password with a digit and a letter, or with any other character, is not bad; an all-digit one is |
| Accounts.PasswordExamples | prk3.py:38-39 | `12345678`, `password`, `пароль` are bad; `passw0rd`, `pass word` are not |
| Accounts.FormExamples | prk3.py:28-36 | a missing, empty or blank field fails `DataRequired`, and the length limits count the text before stripping |
| Accounts.AddUser | prk3.py:77-81 | exactly one new key, with the hash, the time and no last login; other entries unchanged |
| Accounts.StampLogin | prk3.py:55-57 | only that entry's last login changes |
| Accounts.Seeded | prk3.py:42-48 | an `admin` entry exists afterwards; a loaded one is kept unchanged; other entries are untouched |
| Accounts.RegisterDecision | prk3.py:63-75 | the form, then a taken name, then a weak password, refuse in that order |
| Accounts.CreatedPasswordIsMixed | prk3.py:73-75 | an accepted password holds a non-digit and a non-letter |
| Accounts.LoginDecision | prk3.py:54-56 | login succeeds exactly when the form is valid, the name is known and the password check passes |
| Accounts.AdminNeverOverwritten | prk3.py:42-48 | registering another name never changes `admin`'s entry; a login keeps its password |
| Accounts.Registry.constructor | prk3.py:25-48 | the dictionary is the loaded one with `admin` seeded |
| Accounts.Registry.Register | prk3.py:63-84 | only an accepted registration changes the dictionary, by adding exactly that user |
| Accounts.Registry.Login | prk3.py:51-61 | a successful login stamps only that user's entry; a failed one changes nothing |
| Blog.PublicPosts | prk4.py:39 | each non-private post is kept as often as stored and no private one is |
| Blog.Index | prk4.py:36-39 | a signed-in reader gets every post and others the public ones, each as often as stored, in non-increasing creation time |
| Blog.AuthenticatedSeesAll | prk4.py:37 | a signed-in reader sees every post |
| Blog.AnonymousSeesPublic | prk4.py:39 | an anonymous reader sees exactly the posts that are not private |
| Blog.Checked | prk4.py:65 | the box counts as ticked exactly when the field is sent and not empty: absent or empty means public |
| Blog.CheckboxAsSent | prk4.py:65 | a ticked box (sent as `on`) makes the post private; an unticked one does not |
| Blog.CreateDecision | prk4.py:58-67 | anonymous writers are sent to log in; a missing title or content is a bad request |
| Blog.EditDecision | prk4.py:73-80 | anonymous editors are sent to log in; an unknown id is not found; no ownership is tested |
| Blog.NoOwnershipCheck | prk4.py:73-80 | every signed-in user gets the same answer when editing |
| Blog.Edited | prk4.py:76-81 | only that post's title, content and privacy change; ids, authors and times stay |
| Blog.EditToPrivateHides | prk4.py:80 | a post edited to private disappears from the anonymous listing |
| Blog.MaxId | prk4.py:21-22 | the largest id in the table (0 when empty): no id exceeds it and some post carries it |
| Blog.MaxIdAppend | prk4.py:21-22 | appending a post whose id is above all others makes that id the largest |
| Blog.MaxIdSameIds | prk4.py:21-22 | the largest id depends only on the ids, so an edit leaves it alone |
| Blog.Blog.constructor | prk4.py:21-27 | the table starts from the loaded posts, and the next id is one above the largest loaded id, as SQLite allocates an integer primary key |
| Blog.Blog.CreatePost | prk4.py:58-70 | exactly one post by the current user is appended, private exactly when the box is ticked, with id one above the largest id before it |
| Blog.Blog.EditPost | prk4.py:73-82 | the post becomes the edited one; nothing else changes |
| PhoneNumbers.DigitString | flask1/app.py:13 | each draw becomes its decimal digit |
| PhoneNumbers.Candidate | flask1/app.py:13 | the n-th number is `89` followed by the digits of the n-th block of nine draws, in order |
| PhoneNumbers.CandidateWellFormed | flask1/app.py:13 | each drawn number is 11 characters, `89` and nine digits |
| PhoneNumbers.Drawn | flask1/app.py:10-14 | after n passes the set has at most n numbers |
| PhoneNumbers.DrawnWellFormed | flask1/app.py:13-14 | every collected number is well formed |
| PhoneNumbers.Value | flask1/app.py:15 | a digit string of length n denotes a number below 10^n |
| PhoneNumbers.LexTotal | flask1/app.py:15 | two different strings of one length are ordered one way or the other |
| PhoneNumbers.LexValue | flask1/app.py:15 | on digit strings of one length, string order implies numeric order |
| PhoneNumbers.LexIsNumeric | flask1/app.py:15 | on digit strings of one length, string order is numeric order |
| PhoneNumbers.NumericSortIsStringSort | flask1/app.py:15 | distinct entries sorted by value are in strictly increasing string order |
| PhoneNumbers.Elements | flask1/app.py:15 | the set's elements, each once |
| PhoneNumbers.Sorted | flask1/app.py:15 | `sorted` of the set: same elements, as many, in strictly increasing order |
| PhoneNumbers.DrawnStep | flask1/app.py:11-14 | one more pass adds the next number and keeps the count at most 1000 |
| PhoneNumbers.ExhaustedStream | flask1/app.py:11 | when the stream ends first, no prefix of it reached 1000 numbers |
| PhoneNumbers.Collect | flask1/app.py:10-14 | the loop stops with exactly 1000 numbers, those of the fewest passes that reach 1000 |
| PhoneNumbers.GenerateNumbers | flask1/app.py:9-15 | 1000 entries, each `89` and nine digits, strictly increasing, drawn by the fewest passes that reach 1000 |
| PhoneNumbers.NumberInfo | flask1/app.py:66-69 | the first `number` parameter, or empty when there is none |
| PhoneNumbers.NumberInfoEchoes | flask1/app.py:83-99 | the three test requests echo `1234567890`, `test-string` and the empty string |

## Left out

- Rendering, routing, redirects, flash messages and URL building: each handler answers an outcome value instead.
- CSRF protection and `validate_on_submit`'s request-method test in the user registry: the model starts from the submitted form.
- Persistence: SQLite, `save_users`/`save_data`/`load_users` and the JSON files; the tables live in memory, and a loaded file is taken as well formed.
- File system effects other than presence of the stored file: directory creation, file contents, `send_from_directory` and `serve_file`.
- Password hashing, md5, `uuid.uuid4` and the clock: opaque inputs.
- Concurrency: one request at a time, so the check-then-write race in `add_to_cart` is not modelled.
- Floating-point prices (`float(...)` at prj/app.py:221, 262, 389): prices are whole cents, so totals and price order are exact.
- Parse failures of `int(...)` and `float(...)` on form or query values, and missing form fields in the marketplace (Flask answers 400 or 500): inputs arrive parsed.
- The marketplace's `models.py`, which is not part of this model: the default role, stock and active flag are parameters of `Store.constructor`, and neither cascade deletes nor cleanup of cart rows are assumed.
- Read-only routes: `logout`, `product_page`, `brand_page`, `my_brands`, `admin_users`, `admin_brands`, the GET forms, the uploaded-file server and the blog's `login`/`logout`.
- The blog's start-up seeding of `admin` and `user1` and the user table behind its logins: the current user is an input.
- Text.AsciiLower: SQLite's `lower` and Python's `lower` agree on ASCII only; for the allow-list test this is exact (no non-ASCII character lowers into one of the six extensions), but `Disallowed` may report a non-ASCII extension lowered differently.
- Text.Extension: POSIX `splitext`; on Windows `ntpath.splitext` also splits at backslashes, which can differ for client names containing one.
- Uploads.Join: `ntpath.join`'s drive-letter handling is left out; the components it joins here never carry one.
- Accounts.IsAlphaChar: `isalpha` is modelled for Latin, Latin-1 and Cyrillic letters, `isdigit` for ASCII digits; other Unicode letters and digits are not covered.
- Marketplace.Store: ids come from counters that only grow. SQLite without `AUTOINCREMENT` gives a new row the largest id in use plus one, so a deleted highest id is reused. Cart rows of a deleted product are left dangling, so in the source they then attach to a product created later under the reused id and are priced at it. If `models.py` neither cascades a brand's deletion to its products nor sets their `brand_id` to null, products of a deleted brand would likewise attach to a brand created under the reused id. The model instead answers `ServerError` for such products and fails the cart total.
- Blog.Index: SQL leaves the order of posts with equal creation times open; the model fixes one and proves only the non-increasing order.
- PhoneNumbers.GenerateNumbers: the random draws are a finite stream, and a stream that ends before 1000 distinct numbers gives `None`, where the original loop would keep drawing.
