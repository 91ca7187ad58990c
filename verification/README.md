# Shopping cart, catalogue and form validation — a Dafny model

This project models the state logic of a React Native storefront. Four parts
are modelled:

- **The cart slice** (`Cart`). It holds a list of lines (a product and a
  quantity) and a stored total. It has five reducers: `addToCart`,
  `removeFromCart`, `updateQuantity`, `clearCart` and `setCart`. Every reducer
  except `clearCart` (which sets 0) recomputes the total with
  `calculateTotal`; `updateQuantity` skips even that for an unknown id.
- **The products slice** (`Products`). It holds the loaded catalogue, a loading
  flag, the last error and two browsing filters. It has six reducers;
  `setProducts`, `setError` and `clearProducts` each write more than one field.
- **The form validators** (`Validation`). These are email, phone, password,
  name and required-field checks. They use the limits and regular expressions
  of the app's `VALIDATION` constants.
- **The home screen's derived values** (`Home`). These are the `cartCount`
  selector that drives the cart badge, and `filteredProducts`, the catalogue
  narrowed by the search box and the category chips.

Each reducer is a pure function from a state and the action's payload to the
next state. `Run` folds a sequence of actions, modelling a dispatch sequence.
Supporting modules:

- `Wrappers` holds `Option`.
- `Sequences` holds the left fold `Sum` (JavaScript's `reduce`), `Filter`,
  `CountIf`, `FirstIndex` (the position at which `find` stops) and the subsequence relation.
- `Text` holds the JavaScript string primitives: the `\s` / `trim` whitespace
  set, `toLowerCase`, `includes`, and `length` in UTF-16 code units.
- `Catalog` holds the `Product` and `CartItem` records.

Modelling choices:

- **Prices are whole cents** (`int`), so every total is exact.
- **Each regular expression is a left-to-right recogniser.** For each one, an
  iff lemma proves that it accepts exactly the strings that a literal reading of
  the pattern accepts. That literal reading is a concatenation of
  character-class pieces.

Behaviours of the code worth noting:

- `removeFromCart` drops every line carrying the id, not just one.
- `updateQuantity` with an unknown id returns the state untouched. It does not
  recompute the total, so `updateQuantity(id, q)` with `q <= 0` equals
  `removeFromCart(id)` only on a state whose stored total is consistent
  (`Cart.NonPositiveUpdateIsRemoval`).
- `addToCart` on a product already in the cart keeps the product record stored
  in the line. The payload's other fields (such as a new price) are ignored.

## Model

| member | source | states |
|---|---|---|
| Cart.TotalOfLines | src/redux/slices/cartSlice.ts:14-16 | `calculateTotal` is 0 for no lines, price times quantity for one line, additive over concatenation, and non-negative when no price or quantity is negative |
| Cart.Find | src/redux/slices/cartSlice.ts:23-25 | the position of the first line with the id, every earlier line has another id, and none exactly when no line has the id |
| Cart.AddToCart | src/redux/slices/cartSlice.ts:22-37 | an existing id gets exactly one more unit on its first line and no other line changes; a new id is appended as a line of quantity 1; the stored total equals the recomputed one |
| Cart.RemoveFromCart | src/redux/slices/cartSlice.ts:39-44 | no line with the id remains, the rest keep their order (a subsequence), exactly the lines with another id are kept, an unknown id leaves the lines alone, and the total is recomputed |
| Cart.UpdateQuantity | src/redux/slices/cartSlice.ts:46-64 | unknown id: the state is returned unchanged; non-positive quantity: the same state as removing the id; positive quantity: the first matching line gets exactly that quantity and nothing else changes |
| Cart.ClearCart | src/redux/slices/cartSlice.ts:66-69 | the result is the empty, well-formed cart with total 0 |
| Cart.SetCart | src/redux/slices/cartSlice.ts:71-74 | the payload lines are stored verbatim and the total is recomputed from them |
| Cart.BumpTotals | src/redux/slices/cartSlice.ts:27-28 | one more unit on a line adds 1 to the count and that line's price to the total |
| Cart.AppendTotals | src/redux/slices/cartSlice.ts:30-33 | appending a line of quantity 1 adds 1 to the count and the product's price to the total |
| Cart.AddToCartTotals | src/redux/slices/cartSlice.ts:22-37 | adding a product raises the unit count by exactly 1 and the total by the price of the line it lands on |
| Cart.UpdateQuantityTotals | src/redux/slices/cartSlice.ts:59-62 | a positive update changes the count by the quantity difference and the total by price times that difference |
| Cart.FilterOutUniqueLine | src/redux/slices/cartSlice.ts:40-42 | with unique ids, filtering out a present id removes exactly its one line, keeping the others in place |
| Cart.RemoveFromCartUnique | src/redux/slices/cartSlice.ts:39-44 | with unique ids, removing a present id subtracts exactly that line's amount from the total and its quantity from the count |
| Cart.FilterKeepsUniqueIds | src/redux/slices/cartSlice.ts:40-42 | filtering lines never creates a duplicate id |
| Cart.FilterKeepsPositive | src/redux/slices/cartSlice.ts:56-58 | filtering lines keeps every quantity positive |
| Cart.AddToCartKeepsWellFormed | src/redux/slices/cartSlice.ts:22-37 | adding keeps the ids unique, the quantities positive and the total consistent |
| Cart.RemoveFromCartKeepsWellFormed | src/redux/slices/cartSlice.ts:39-44 | removing keeps the cart well formed |
| Cart.UpdateQuantityKeepsWellFormed | src/redux/slices/cartSlice.ts:46-64 | updating to any quantity, non-positive ones included, keeps the cart well formed |
| Cart.SetCartWellFormedIff | src/redux/slices/cartSlice.ts:71-74 | after `setCart` the cart is well formed exactly when the payload has unique ids and positive quantities |
| Cart.SetCartKeepsDuplicates | src/redux/slices/cartSlice.ts:71-74 | `setCart` does not deduplicate: two lines of one product survive and break the uniqueness invariant |
| Cart.ReduceKeepsWellFormed | src/redux/slices/cartSlice.ts:21-75 | every reducer keeps a well-formed cart well formed, given a well-formed `setCart` payload |
| Cart.Reduce | src/redux/slices/cartSlice.ts:21-75 | every action except a quantity change leaves the stored total equal to the recomputed one whatever the state before, and a quantity change keeps a consistent total consistent |
| Cart.Run | src/redux/slices/cartSlice.ts:18-76 | after any sequence of actions from a consistent state, the stored total equals the recomputed one |
| Cart.RunKeepsWellFormed | src/redux/slices/cartSlice.ts:18-76 | any action sequence whose `setCart` payloads are well formed keeps the ids unique and the quantities positive |
| Cart.NonPositiveUpdateIsRemoval | src/redux/slices/cartSlice.ts:54-58 | on a consistent cart, updating to zero or a negative quantity gives the same state as removing the id, whether the id is present or not |
| Cart.DecrementLastUnitRemoves | src/components/CartItemComponent.tsx:34 | pressing minus on a line holding one unit removes the line |
| Cart.FillingScenario | src/redux/slices/cartSlice.ts:22-37 | products at 1000 and 550 cents, added as p1, p1, p2, give totals 1000, 2000, 2550 and counts 1, 2, 3, with p1 on a single line |
| Cart.EmptyingScenario | src/redux/slices/cartSlice.ts:46-69 | setting p1 to 0 in that cart leaves total 550, count 1 and no p1 line; clearing then leaves total 0, count 0 |
| Cart.ClearCartIdempotent | src/redux/slices/cartSlice.ts:66-69 | clearing twice is clearing once, and gives the initial state |
| Cart.InitialStateWellFormed | src/redux/slices/cartSlice.ts:9-12 | the starting cart is well formed with a count of 0 |
| Products.SetLoading | src/redux/slices/productsSlice.ts:24-26 | only the loading flag changes |
| Products.SetProducts | src/redux/slices/productsSlice.ts:28-32 | the list is stored, loading stops and the error is cleared; the filters stay |
| Products.SetError | src/redux/slices/productsSlice.ts:34-37 | the message is recorded, loading stops and the old list is kept |
| Products.SetSelectedCategory | src/redux/slices/productsSlice.ts:39-41 | only the category changes |
| Products.SetSearchQuery | src/redux/slices/productsSlice.ts:43-45 | only the query changes |
| Products.ClearProducts | src/redux/slices/productsSlice.ts:47-50 | the list is emptied and the error cleared, while loading and the filters stay |
| Products.InitialStateIsIdle | src/redux/slices/productsSlice.ts:12-18 | the slice starts empty, idle, error-free, on category "All" with an empty query |
| Products.ClearProductsIdempotent | src/redux/slices/productsSlice.ts:47-50 | clearing twice is clearing once |
| Products.LoadCycle | src/redux/slices/productsSlice.ts:24-32 | raising the loading flag and then loading gives the same state as loading directly |
| Products.LoadAfterFailure | src/redux/slices/productsSlice.ts:28-37 | a successful load after a failure leaves no trace of the failure |
| Products.FiltersCommute | src/redux/slices/productsSlice.ts:39-45 | setting the category and setting the query commute |
| Products.RunSnoc | src/redux/slices/productsSlice.ts:20-52 | running `actions + [a]` is running `actions`, then reducing `a` |
| Products.RunCategory | src/redux/slices/productsSlice.ts:39-41 | after any action sequence the category is the last one selected, or the starting one if none was |
| Products.RunQuery | src/redux/slices/productsSlice.ts:43-45 | after any action sequence the query is the last one searched, or the starting one if none was |
| Products.Reduce | src/redux/slices/productsSlice.ts:23-51 | each field moves only under its own actions: loading stops on a load result, the list changes only on a load or a reset, a new error comes only from `setError`, and the category and the query change only when set |
| Products.Run | src/redux/slices/productsSlice.ts:20-52 | without a `setError` action a slice with no error never gets one, and without a load or a reset the list stays as it was |
| Products.RunEndingInResultStopsLoading | src/redux/slices/productsSlice.ts:28-37 | a sequence ending in a load result leaves loading off, with the error cleared on success or set to the message on failure |
| Validation.ValidateEmail | src/utils/validation.ts:3-5 | accepts exactly the strings the email pattern matches |
| Validation.EmailSound | src/utils/validation.ts:3-5 | every address the recogniser accepts splits as `local@host.tld` with three `[^\s@]+` runs |
| Validation.EmailComplete | src/constants/app.ts:53 | every `local@host.tld` built from three `[^\s@]+` runs is accepted |
| Validation.EmailRecogniserMatchesPattern | src/constants/app.ts:53 | the email recogniser accepts exactly the strings the email pattern matches |
| Validation.ValidEmailShape | src/constants/app.ts:53 | an accepted address has no whitespace and exactly one `@`, which is not its first character |
| Validation.SkipOptionalSplit | src/constants/app.ts:54 | one `[...]?`: the text is an optional character of the class followed by what the recogniser goes on with |
| Validation.TailSound | src/constants/app.ts:54 | a string the tail recogniser accepts splits into three digits, an optional separator and 4 to 6 digits |
| Validation.TailComplete | src/constants/app.ts:54 | every such split is accepted by the tail recogniser |
| Validation.MiddleComplete | src/constants/app.ts:54 | three digits, an optional `)` and an optional separator before an accepted tail are accepted |
| Validation.ValidatePhone | src/utils/validation.ts:7-9 | accepts exactly the strings the phone pattern matches |
| Validation.PhoneSound | src/utils/validation.ts:7-9 | every number the recogniser accepts splits into the eight pieces of the phone pattern |
| Validation.PhoneComplete | src/constants/app.ts:54 | every string built from the eight pieces of the phone pattern is accepted |
| Validation.PhoneRecogniserMatchesPattern | src/constants/app.ts:54 | the phone recogniser accepts exactly the strings the phone pattern matches |
| Validation.LeadingDigits | src/constants/app.ts:54 | three leading digits add exactly three to the digit count |
| Validation.TailDigits | src/constants/app.ts:54 | an accepted tail holds 7 to 9 digits |
| Validation.MiddleDigits | src/constants/app.ts:54 | an accepted number, with any leading `+` and `(` removed, holds 10 to 12 digits |
| Validation.ValidPhoneDigitCount | src/constants/app.ts:54 | every accepted phone number holds between 10 and 12 digits |
| Validation.MessagesDistinct | src/utils/validation.ts:17-31 | the four password messages are pairwise different |
| Validation.ComplaintMembers | src/utils/validation.ts:17-31 | each message appears in the error list exactly when its own check failed |
| Validation.ComplaintThenRest | src/utils/validation.ts:15-31 | pushing a message or not in front of a subsequence of the later messages keeps the list a subsequence of all messages |
| Validation.ValidatePassword | src/utils/validation.ts:11-37 | valid exactly when there are no errors; the errors appear in the fixed order length, uppercase, lowercase, digit, each at most once; each message is present exactly when its check fails |
| Validation.PasswordLengthBoundary | src/utils/validation.ts:17-19 | a password of fewer than 8 characters, all in the Basic Multilingual Plane, is rejected; one of 8 or more code units with an uppercase letter, a lowercase letter and a digit is accepted |
| Validation.ValidateName | src/utils/validation.ts:39-44 | an accepted name has 1 to 50 characters; for text of the Basic Multilingual Plane it is accepted exactly when it has 2 to 50 |
| Validation.ValidateRequired | src/utils/validation.ts:46-48 | accepted exactly when the value holds a character that is not whitespace |
| Text.Trim | src/utils/validation.ts:47 | the trimmed value is a slice of the original with only whitespace cut before and after it, and it neither starts nor ends with whitespace |
| Text.TrimBothEnds | src/utils/validation.ts:47 | trimming the start and then the end cuts whitespace at the two ends only |
| Text.TrimEmptyIffBlank | src/utils/validation.ts:47 | trimming leaves nothing exactly when the value is all whitespace |
| Text.Utf16LengthInBmp | src/utils/validation.ts:41-42 | `length` equals the number of characters when every character is in the Basic Multilingual Plane |
| Text.IncludesLower | src/screens/home/HomeScreen.tsx:28-30 | an occurrence survives lower-casing both strings |
| Home.LowerOccurrence | src/screens/home/HomeScreen.tsx:28-30 | searching the lower-cased name for the lower-cased query finds exactly the stretches of the name that equal the query case-blind |
| Home.SelectCartCount | src/screens/home/HomeScreen.tsx:18-20 | the loop's count is the sum of the lines' quantities, and in a cart of positive quantities at least the number of lines |
| Home.ShowBadge | src/screens/home/HomeScreen.tsx:46-50 | the badge is shown only when the summed count is positive, so never for an empty cart; with no negative quantity it is shown exactly when some line holds a unit, and with every quantity positive exactly when the cart has a line |
| Home.UniformCartCount | src/screens/home/HomeScreen.tsx:18-20 | lines that all hold q units count q each, so the badge counts units, not lines |
| Home.MatchesSearch | src/screens/home/HomeScreen.tsx:28-30 | a product matches exactly when some stretch of its name equals the query once both are lower-cased; so every occurrence of the query anywhere in the name matches, and an empty query matches every product |
| Home.MatchesCategory | src/screens/home/HomeScreen.tsx:31-32 | "All" accepts every product, a product always passes its own category, and any other chip accepts only its own category |
| Home.FilterProducts | src/screens/home/HomeScreen.tsx:27-34 | the result keeps catalogue order, a product is in it exactly when it is in the catalogue and matches both the search and the category, its length is the number of matching catalogue entries (duplicates kept), and a specific category yields only its own products |
| Home.ShowsEverythingInitially | src/screens/home/HomeScreen.tsx:22-34 | with "All" and an empty query the whole catalogue is shown |
| Home.SearchIgnoresCase | src/screens/home/HomeScreen.tsx:28-30 | queries that differ only in ASCII letter case select the same products |
| Home.NameCaseIrrelevant | src/screens/home/HomeScreen.tsx:28-29 | lower-casing a product's name does not change whether it matches |
| Home.RefiningQueryNarrows | src/screens/home/HomeScreen.tsx:27-34 | a query containing the old one selects a subsequence of the old result |
| Home.CategoryNarrowsAll | src/screens/home/HomeScreen.tsx:31-32 | any category selects a subsequence of what "All" selects for the same query |

## Left out

- Floating-point prices and the `toFixed` display formatting. Prices are integer cents, so rounding in `calculateTotal` is not modelled.
- Quantities are integers. A fractional quantity passed to `updateQuantity` is not modelled.
- The Redux store, Immer drafts, React rendering, navigation, the HTTP client, storage, hooks and the authentication flows are not part of this model. Reducers are pure functions of state and payload.
- The context-based cart (`useCart`, `getCartCount`) behind the second home screen, src/screens/HomeScreen.tsx, is not part of this model. Its product filter (lines 26-33) is the same predicate as `Home.FilterProducts`.
- The tab navigator's badge selector (src/navigation/MainTabNavigator.tsx:50-55) is the same fold as `Home.SelectCartCount` and is not modelled separately.
- The fixed category list of the home screen and the product data file are inputs here. `Home.FilterProducts` takes any catalogue and any category.
- A quantity cap and stock checks: neither reducer enforces them, and neither does the model.
- `Home.MatchesSearch`: `toLowerCase` is modelled for ASCII letters only. The source lower-cases all of Unicode, so non-ASCII names and queries may match differently.
- `Home.ShowBadge`: for a cart holding a negative quantity (which only `setCart` can store) the contract states only that a shown badge means a positive count, not the converse, because such a count depends on how the negative and positive lines add up.
- Validation.ValidateName: the exact length iff is stated only for text of the Basic Multilingual Plane. For other text the contract only bounds the character count by 1 to 50, because characters outside that plane count twice in `length`.
- The regular-expression engine is not modelled as such. Each pattern is a recogniser proved equal to a literal reading of the pattern.
- The register screen's own password-length check is a screen concern and is not part of this model.
