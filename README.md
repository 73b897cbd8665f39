# OTP page and store page of the Study-Coin front end, in Dafny

This project models the two pieces of the Study-Coin single-page application
whose behaviour goes beyond rendering.

- **The OTP verification page** (`src/pages/otpPage/index.tsx`). Four
  single-character input slots edit one code string. A change event filters
  the keystroke with `/^\d$/` or the empty string. It then edits the code by
  `split("")`, an indexed store and `join("")`, and moves focus forward. A
  Backspace key-down on an empty slot moves focus back. Submitting sends the
  code to the verification endpoint. It then either navigates to `/login` or
  shows an error, and clears `loading` on every path.
- **The store page** (`src/pages/storePage/index.tsx`). It has a fixed
  twelve-product catalog and a category filter in which `"All"` shows
  everything. One selected product drives a detail overlay. The user's 100
  points gate the Buy Now button and the colour of the points figure.

Files:

- `wrappers.dfy`: `Option` (for JavaScript `null`) and `Result`.
- `js_array.dfy`: the JavaScript array semantics the OTP edit depends on.
  This covers a store past the end that leaves holes, and `join` writing
  each hole as `""`.
- `otp.dfy`: the pure editor transitions `OnInput` and `OnKeyDown`, the
  submission outcome `Settle`, and the class `OtpPage`. Its fields are
  `code`, `focus`, `loading`, `error`, `navigatedTo` and `requests`, and its
  methods are the handlers.
- `store.dfy`: the catalog constants, the filter and the overlay gates, and
  the class `StorePage`. Its fields are `selectedCategory` and
  `selectedProduct`.

The network call is a parameter of type `Outcome`. `Response(ok, body)`
stands for an HTTP response whose body either parses (`Json(message)`) or
does not (`Malformed(reason)`). `Transport(reason)` stands for a rejected
fetch. Navigation is recorded in `navigatedTo`. Each request's `otpCode`
payload is recorded in `requests`.

Three facts about the page that are easy to miss:

- **Slots are not independent cells.** The four inputs edit one string.
  A digit typed into a slot at or past the end of the code is appended, so
  it shows in the first empty slot (`TypingPastEndLandsInFirstEmptySlot`,
  otpPage/index.tsx:25-31). Clearing a slot deletes its character, so every
  later digit moves one slot to the left (`ClearingShiftsLaterDigits`).
- **The submitted code can be shorter than 4 digits.** Submission sends
  whatever the code holds (`requests == old(requests) + [old(code)]`). Only
  the inputs' `required` attribute (otpPage/index.tsx:101) stands in the
  way, and that attribute is not modelled.
- **An empty server message becomes "OTP failed".** The `||` on
  otpPage/index.tsx:64 treats an empty `message` as missing.

## Model

| member | source | states |
|---|---|---|
| JsArray.Split | src/pages/otpPage/index.tsx:25 | `split("")` yields one single-character string per character, same length |
| JsArray.Store | src/pages/otpPage/index.tsx:30 | an indexed store overwrites element i, or grows the array to length i+1 with holes between the old end and i; other elements are unchanged |
| JsArray.Join | src/pages/otpPage/index.tsx:31 | no contract of its own: `join("")` with holes as ""; JoinHoles, JoinSplit, JoinStoreInside and JoinStorePastEnd state what it yields |
| JsArray.JoinSplit | src/pages/otpPage/index.tsx:25-31 | joining the split of a string gives back the string |
| JsArray.JoinHoles | src/pages/otpPage/index.tsx:31 | holes join as the empty string |
| JsArray.JoinStoreInside | src/pages/otpPage/index.tsx:25-31 | split, store at i < length, join replaces character i by the value (deletes it when the value is empty) |
| JsArray.JoinStorePastEnd | src/pages/otpPage/index.tsx:25-31 | split, store at i >= length, join appends the value to the end |
| Otp.Accepts | src/pages/otpPage/index.tsx:28 | no contract of its own: the `/^\d$/` test or the empty string; OnInput states that a rejected value changes nothing |
| Otp.SlotText | src/pages/otpPage/index.tsx:104 | no contract of its own: character index of the code, or "" past its end; SlotsSpellCode, ClearingShiftsLaterDigits and TypingPastEndLandsInFirstEmptySlot state what the slots show |
| Otp.EditCode | src/pages/otpPage/index.tsx:25-31 | the keystroke's edit: a splice at index < length, an append otherwise |
| Otp.OnInput | src/pages/otpPage/index.tsx:23-37 | a value that is neither one ASCII digit nor empty changes nothing; an accepted value at index i < length replaces character i by the value, at or past the end it is appended; focus goes to i+1 exactly when the value is non-empty and i < 3, else stays |
| Otp.OnInputEditsOneCharacter | src/pages/otpPage/index.tsx:25-31 | inside the code, an accepted digit overwrites exactly character i and "" deletes character i, closing the gap |
| Otp.EditCodeKeepsDigits | src/pages/otpPage/index.tsx:25-31 | an accepted value keeps a digits-only code digits-only; the code never grows when the index is inside it and grows by at most one otherwise |
| Otp.OnInputKeepsWellFormed | src/pages/otpPage/index.tsx:23-37 | for a slot index 0..3, a code of at most 4 digits with focus in 0..3 stays so after any keystroke |
| Otp.OnKeyDown | src/pages/otpPage/index.tsx:39-46 | the code never changes; focus moves to i-1 exactly on Backspace with slot i empty and i > 0; well-formedness is preserved |
| Otp.TypingInOrderSpellsDigits | src/pages/otpPage/index.tsx:23-37 | typing digits d0..dk-1 (k <= 4) into slots 0..k-1 from the empty code gives exactly d0..dk-1, with focus on slot k, or on slot 3 after four digits |
| Otp.SlotsSpellCode | src/pages/otpPage/index.tsx:96-107 | the four slots' displayed values, left to right, concatenate to the code |
| Otp.ClearingShiftsLaterDigits | src/pages/otpPage/index.tsx:25-31 | clearing filled slot i shortens the code by one, and every slot j >= i then shows what slot j+1 showed |
| Otp.TypingPastEndLandsInFirstEmptySlot | src/pages/otpPage/index.tsx:25-31 | a digit typed past the end shows in the first empty slot, the slot typed into stays empty, and earlier slots are unchanged |
| Otp.Attempt | src/pages/otpPage/index.tsx:53-70 | no contract of its own: the try block, completing with the navigation target or throwing a message; Settle states its outcomes |
| Otp.Settle | src/pages/otpPage/index.tsx:53-73 | navigation (to /login) happens exactly on an ok response whose body parses, and then no error is set; an error is set exactly when there is no navigation; a non-ok parsed response gives its non-empty message or "OTP failed"; a malformed body or transport failure gives its own description |
| Otp.OtpPage.constructor | src/pages/otpPage/index.tsx:12-16 | the page starts with an empty code, focus on slot 0, not loading, no error, no navigation, no request |
| Otp.OtpPage.ShownError | src/pages/otpPage/index.tsx:113 | the error paragraph appears exactly for a non-empty error, with that text |
| Otp.OtpPage.HandleInputChange | src/pages/otpPage/index.tsx:23-37 | the code and focus change as `OnInput` says; loading, error, navigation and requests are unchanged |
| Otp.OtpPage.HandleKeyDown | src/pages/otpPage/index.tsx:39-46 | focus changes as `OnKeyDown` says; nothing else changes |
| Otp.OtpPage.BeginSubmit | src/pages/otpPage/index.tsx:48-60 | only when not loading: loading becomes true, the error becomes null, the current code is sent once |
| Otp.OtpPage.FinishSubmit | src/pages/otpPage/index.tsx:62-75 | on every outcome loading ends false; the error and navigation are as `Settle` says; code, focus and requests are unchanged |
| Otp.OtpPage.HandleSubmit | src/pages/otpPage/index.tsx:48-76 | one whole submission: exactly one request carrying the code, loading false afterwards, error and navigation as `Settle` says |
| Store.Products | src/pages/storePage/index.tsx:16-114 | the twelve catalog entries, field for field; CatalogCategories, CatalogIds, CatalogPrices and the lemmas after them state their facts |
| Store.Categories | src/pages/storePage/index.tsx:116 | the six category buttons, "All" first |
| Store.UserPoints | src/pages/storePage/index.tsx:117 | the fixed balance of 100 points |
| Store.ByCategory | src/pages/storePage/index.tsx:126 | the filter keeps exactly the products of the input that carry the category |
| Store.ByCategoryCounts | src/pages/storePage/index.tsx:126 | each matching product occurs as often as in the input; a non-matching product does not occur |
| Store.ByCategoryIsSubsequence | src/pages/storePage/index.tsx:126 | the filtered list is a subsequence of the input, in the input's order |
| Store.Filtered | src/pages/storePage/index.tsx:123-126 | no contract of its own: `filteredProducts`; FilteredMeaning and FilteredIdempotent state its meaning |
| Store.FilteredMeaning | src/pages/storePage/index.tsx:123-126 | "All" gives the whole catalog in order; any other category gives exactly the entries carrying it; the result is always a subsequence of the catalog |
| Store.FilteredIdempotent | src/pages/storePage/index.tsx:123-126 | filtering the displayed list again by the same category gives the same list |
| Store.BagsShowsNothing | src/pages/storePage/index.tsx:16-126 | "Bags", a category no product carries, shows an empty grid |
| Store.HoodieShowsOnlyTheHoodie | src/pages/storePage/index.tsx:16-126 | "Hoodie" shows exactly product 9 |
| Store.CatalogCategories | src/pages/storePage/index.tsx:16-114 | the catalog has 12 entries, the ninth is a "Hoodie" and all others are "Tshirt" |
| Store.CatalogIds | src/pages/storePage/index.tsx:16-114 | the ids are 1..12 in catalog order |
| Store.CatalogIdsDistinct | src/pages/storePage/index.tsx:16-114 | no two catalog entries share an id |
| Store.CatalogPrices | src/pages/storePage/index.tsx:16-114 | every price is positive and at most 90 |
| Store.CatalogCategoriesListed | src/pages/storePage/index.tsx:16-116 | every product's category has a category button |
| Store.PointsColour | src/pages/storePage/index.tsx:204-206 | no contract of its own: black when points >= price, else red; OverlayFor states that it agrees with the Buy Now gate |
| Store.ShowsBuyNow | src/pages/storePage/index.tsx:217 | no contract of its own: Buy Now renders when points >= price; OverlayFor states it |
| Store.OverlayFor | src/pages/storePage/index.tsx:189-220 | an overlay is shown exactly when a product is selected, for that product; Buy Now shows exactly when points >= price, and the figure is red exactly when Buy Now is hidden |
| Store.EveryProductAffordable | src/pages/storePage/index.tsx:16-117 | with 100 points, every catalog product's overlay shows Buy Now and a black figure |
| Store.StorePage.constructor | src/pages/storePage/index.tsx:120-121 | the page starts on "All" with no product selected |
| Store.StorePage.Visible | src/pages/storePage/index.tsx:123-126 | every product in the grid is a catalog product |
| Store.StorePage.Shown | src/pages/storePage/index.tsx:189-223 | for a valid page, the overlay is open exactly when a product is selected, shows that product, and always offers Buy Now with the points figure in black |
| Store.StorePage.SelectCategory | src/pages/storePage/index.tsx:142-151 | a category button sets the category to its own value, which is always one of the listed categories; the selection is unchanged |
| Store.StorePage.HandleProductClick | src/pages/storePage/index.tsx:128-130 | clicking a card in the grid selects exactly that product; the category is unchanged |
| Store.StorePage.CloseModal | src/pages/storePage/index.tsx:132-134 | closing always clears the selection to null, whichever product was open; the category is unchanged |

## Left out

- The route table (`src/routes/index.tsx`) is configuration handed to react-router. Path matching, nesting and parameter extraction happen inside that library, which is not part of this model.
- The HTTP request, its headers, the endpoint URL, JSON serialisation of the payload and JSON parsing are replaced by the `Outcome` parameter. Only the `otpCode` value of each request is recorded. `console.log` of the response is omitted.
- Otp.Settle: a non-ok response whose body parses to `null` makes `errorData.message` throw a `TypeError`, which the catch clause shows as the error; a `message` that is `null`, `false`, `0` or `NaN` is treated as missing by the `||` on line 64, which `Json(None)` models; any other non-string `message` (a non-zero number, `true`, an object or an array) is shown as `new Error` converts it to a string. That last case and the `TypeError` case are not modelled: `Json(message)` carries a string message or none. An ok response whose body parses to `null` navigates, which `Response(true, Json(None))` models.
- The DOM and React machinery is not modelled: refs, `.focus()` as a side effect, `preventDefault`, JSX, CSS classes, images and the placeholder image fallback. Focus is a slot index that only the handlers and the initial autofocus set. Focus moved by mouse or Tab is not modelled.
- The browser's `maxLength={1}` and `required` constraints are not modelled. The filter accepts or rejects any string value.
- The handlers take the slot index as a parameter and require it to be in 0..3, because only the four rendered slots call them. The focus bound `inputRefs.current.length - 1` is taken to be 3, with all four refs registered.
- The submission is asynchronous in the page. Here it is two steps, `BeginSubmit` and `FinishSubmit`, and `HandleSubmit` is the two run together. The `disabled={loading}` button is the requirement that no submission begins while loading. The label "Verifying..." / "Verify OTP" is not modelled. Leaving the page while a request is in flight is not modelled.
- `split("")` splits UTF-16 code units, while Dafny characters are Unicode scalar values. The code only ever holds ASCII digits, so the two agree.
- The store overlay shows the literal points figure `300`, which is unrelated to both the price and the balance. Only its colour is modelled.
- The Buy Now button and the filter-icon button have no handlers, so there is no behaviour to model.
