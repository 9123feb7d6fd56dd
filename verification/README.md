# Order and product-entry core, modelled in Dafny

This project models the logic of a small React application. The application
has a product-entry form and an order browser with several views.

- **Product entry form** (`ProductEntry`). The form holds a product record with
  two nested addresses and a dimensions sub-record. It also holds an error map
  keyed by field path and four accordion panels. Modelled operations:
  - the change handler, which coerces numeric inputs and routes `dimensions.*`
    names;
  - per-key error clearing;
  - the validator, which writes a field-path → message map and accepts exactly
    when the map is empty;
  - the submit guard, the reset, and the accordion toggle;
  - the two address handlers, which delete one side's errors;
  - the prefix-stripping projection that gives each address sub-form its own
    errors.
- **Address sub-form** (`AddressForm`). The sub-form has ten string fields. A
  keystroke emits a whole replacement record. The collapse flag only gates
  whether the inputs exist.
- **Order browser** (`OpenOrders`). It models:
  - the filter: a case-insensitive search over three fields, then the status
    and priority selectors with their `all` sentinel;
  - `handleOrderUpdate`, which applies a partial record to the orders with a
    given id;
  - the four sample orders.
- **Kanban board** (`OrderKanban`). The board has five status columns, with
  counts and empty notes. A card's status selector forwards a status-only
  update.
- **Timeline** (`OrderTimeline`). The timeline is a stable sort of a copy of
  the list, newest first, with `Latest` / `i of n` labels and an empty-state
  note.

Shared pieces:

- `Text` has `trim` (the ECMAScript white-space set), an ASCII `toLowerCase` and
  `includes`.
- `Seqs` has `Array.prototype.filter` with its order-preserving and fusion
  laws.
- `Common` has `Option` and the dimensions record.

Every handler is a pure function from the current state to the next.
React's `setState` becomes the function's result.

Points of the code that the model keeps as written:

- The validator rejects a zero or negative price (`price <= 0`,
  ProductEntryPortal.tsx:150).
- `quantity` is a parsed number, not an integer, and only a negative value is
  rejected (ProductEntryPortal.tsx:154).
- The category is only tested for emptiness (ProductEntryPortal.tsx:152). It is
  not trimmed like the other text fields.
- `handleOrderUpdate` patches every order carrying the id
  (OpenOrders.tsx:187-189). The model states the property for all of them.

## Model

| member | source | states |
|---|---|---|
| Text.Trim | src/components/ProductEntryPortal.tsx:126 | `trim()` result is no longer than the input and neither starts nor ends with white space |
| Text.TrimCuts | src/components/ProductEntryPortal.tsx:126 | `trim()` result is a slice of the input, and every character of the input outside that slice is white space |
| Text.TrimStartDropsWhitespace | src/components/ProductEntryPortal.tsx:126 | every character dropped from the front is white space |
| Text.TrimEndDropsWhitespace | src/components/ProductEntryPortal.tsx:126 | every character dropped from the back is white space |
| Text.TrimStartEmptyIff | src/components/ProductEntryPortal.tsx:126 | dropping leading white space leaves nothing exactly when the string is all white space |
| Text.TrimEndEmptyIff | src/components/ProductEntryPortal.tsx:126 | dropping trailing white space leaves nothing exactly when the string is all white space |
| Text.BlankIffAllWhitespace | src/components/ProductEntryPortal.tsx:126-153 | `!s.trim()` holds exactly when every character is white space (so `""` is blank) |
| Text.Lower | src/components/OpenOrders.tsx:146-148 | `toLowerCase` keeps the length, leaves no upper-case Latin letter, and changes a character only by lowering an upper-case letter |
| Text.Includes | src/components/OpenOrders.tsx:146-148 | the left-to-right `includes` scan succeeds exactly when the needle occurs at some index |
| Text.CharOutOfReach | src/components/OpenOrders.tsx:146-148 | a needle character absent from every position it could be aligned with rules out `includes` |
| Text.ExcludesNotIncluded | src/components/OpenOrders.tsx:146-148 | a needle longer than the haystack, or one with an unalignable character, is not included |
| Text.ExcludesLetterLowered | src/components/OpenOrders.tsx:146-148 | a lower-case letter absent in both cases from the raw text is absent from the lowered text |
| Seqs.Filter | src/components/OpenOrders.tsx:145-160 | `filter` returns only accepted elements of the input, every accepted value appears in the result, and no occurrence is added |
| Seqs.FilterCounts | src/components/OpenOrders.tsx:145-160 | `filter` keeps every occurrence of an accepted value and no occurrence of a rejected one |
| Seqs.FilterEmbedding | src/components/OpenOrders.tsx:141-162 | the filtered list sits in its input at strictly increasing positions |
| Seqs.FilterIsSubsequence | src/components/OpenOrders.tsx:141-162 | `filter` output is an order-preserving subsequence of its input |
| Seqs.FilterFuse | src/components/OpenOrders.tsx:141-162 | filtering by `p` then by `q` equals one filter by `p && q` |
| Seqs.FilterCommute | src/components/OpenOrders.tsx:141-162 | two successive filters can be swapped |
| Seqs.FilterKeepsAll | src/components/OpenOrders.tsx:141-162 | a filter that accepts every element returns the input itself |
| Seqs.FilterIdempotent | src/components/OpenOrders.tsx:141-162 | filtering twice by the same predicate is filtering once |
| Seqs.FilterConcat | src/components/OrderKanban.tsx:18-20 | filtering distributes over concatenation |
| AddressForm.FieldNameRoundTrip | src/components/AddressForm.tsx:33-38 | the `name` of each input designates that input back, so `[name]: value` hits the intended field |
| AddressForm.FieldNameInjective | src/components/AddressForm.tsx:33-38 | two inputs share a name only if they are the same input |
| AddressForm.Extensionality | src/components/AddressForm.tsx:3-14 | two addresses agreeing on all ten fields are equal |
| AddressForm.HandleInputChange | src/components/AddressForm.tsx:33-39 | the emitted record holds the typed value in the edited field and the incoming value in each of the nine others |
| AddressForm.SameValueIsNoChange | src/components/AddressForm.tsx:35-37 | re-typing the current value emits the incoming address unchanged |
| AddressForm.LastEditWins | src/components/AddressForm.tsx:33-39 | two edits of one field leave only the second value |
| AddressForm.HandleEvent | src/components/AddressForm.tsx:89-96 | a toggle flips only the collapse flag and emits nothing; an input emits a record exactly when the form is expanded, with the field replaced |
| AddressForm.NewFormEmitsNothing | src/components/AddressForm.tsx:31-96 | a new form starts collapsed with no input rendered, so whatever event comes first it hands no address to its owner |
| AddressForm.ToggleTwice | src/components/AddressForm.tsx:89 | two toggles restore the collapse flag and never emit address data |
| ProductEntry.UpToDot | src/components/ProductEntryPortal.tsx:97 | `split(".")[1]` is the longest dot-free prefix of the rest of the name |
| ProductEntry.UpToDotWithoutDot | src/components/ProductEntryPortal.tsx:97 | a dot-free segment is taken whole |
| ProductEntry.FieldOfInputName | src/components/ProductEntryPortal.tsx:96-116 | a name routes to an input only if it begins with that input's name, and only a dimension name may go on, and only with a further `.` segment |
| ProductEntry.InputNameRoundTrip | src/components/ProductEntryPortal.tsx:96-116 | routing an input's `name` through the `dimensions.` test and the split leads back to that input |
| ProductEntry.DimensionNameRoundTrip | src/components/ProductEntryPortal.tsx:96-97 | each `dimensions.<key>` name routes to its dimension |
| ProductEntry.TopLevelNameRoundTrip | src/components/ProductEntryPortal.tsx:108-115 | each top-level name routes to its own field |
| ProductEntry.Coerce | src/components/ProductEntryPortal.tsx:102-113 | `parseFloat(value) \|\| 0` is 0 exactly when the text does not parse or parses to 0, and otherwise the parsed number |
| ProductEntry.ProductExtensionality | src/components/ProductEntryPortal.tsx:4-24 | records agreeing on every input field, both addresses and the two unused collections are equal |
| ProductEntry.UpdateField | src/components/ProductEntryPortal.tsx:96-116 | price, quantity and the four measured dimensions store `parseFloat(value) \|\| 0`; the unit selections and text fields store the raw value; no other field, address or collection changes |
| ProductEntry.UnparsableInputStoresZero | src/components/ProductEntryPortal.tsx:102-113 | an unparsable value stores 0 in a numeric field |
| ProductEntry.ClearFieldError | src/components/ProductEntryPortal.tsx:118-120 | a non-empty message under the key becomes `""`, no key is added or removed, other messages are kept, and without a message the map is unchanged |
| ProductEntry.HandleInputChange | src/components/ProductEntryPortal.tsx:89-121 | a keystroke updates the record as above and blanks only that input's error; panels are untouched |
| ProductEntry.ToggleAccordion | src/components/ProductEntryPortal.tsx:224-229 | the named panel flips and every other panel keeps its state |
| ProductEntry.ToggleTwice | src/components/ProductEntryPortal.tsx:224-229 | toggling a panel twice restores the accordion |
| ProductEntry.HandleToggle | src/components/ProductEntryPortal.tsx:224-229 | a toggle changes neither the record nor the errors |
| ProductEntry.Reset | src/components/ProductEntryPortal.tsx:680-723 | the reset yields the initial default record (empty strings, zeros, `in`/`lb`) and no errors |
| ProductEntry.ErrorsFor | src/components/ProductEntryPortal.tsx:356-361 | a sub-form receives exactly the keys with its side's prefix, prefix stripped, messages kept |
| ProductEntry.HandleAddressChange | src/components/ProductEntryPortal.tsx:231-247 | the new address replaces that side only; every key with that side's prefix is deleted and every other key keeps its message |
| ProductEntry.ClearingKeepsOtherSide | src/components/ProductEntryPortal.tsx:238-246 | deleting one side's keys leaves the other side's projection unchanged |
| ProductEntry.AddressChangeKeepsOtherSide | src/components/ProductEntryPortal.tsx:249-265 | after an address change the other sub-form sees the same errors |
| ProductEntry.AddressKeystroke | src/components/ProductEntryPortal.tsx:231-247 | a sub-form keystroke sets one field of its side, keeps the rest and the other side, and clears that sub-form's errors |
| ProductEntry.CheckMembership | src/components/ProductEntryPortal.tsx:126-155 | the validator applies every product rule and an address rule exactly for name, street1, city, state, zipCode, country, phone and email |
| ProductEntry.CheckKeyInjective | src/components/ProductEntryPortal.tsx:126-155 | distinct rules write distinct error keys |
| ProductEntry.RunChecksKeys | src/components/ProductEntryPortal.tsx:124-155 | after the rules run, the keys are the starting keys plus the keys of failing rules |
| ProductEntry.RunChecksKeeps | src/components/ProductEntryPortal.tsx:124-155 | a key no later failing rule writes keeps its message |
| ProductEntry.RunChecksMessage | src/components/ProductEntryPortal.tsx:124-155 | a failing rule's key ends with that rule's message |
| ProductEntry.ValidationErrorsSpec | src/components/ProductEntryPortal.tsx:123-157 | a rule's key is in the map exactly when the rule is applied and fails, and then carries its message |
| ProductEntry.ValidationKeysAreCheckKeys | src/components/ProductEntryPortal.tsx:123-157 | the map holds no key other than those of failing rules |
| ProductEntry.ValidateForm | src/components/ProductEntryPortal.tsx:123-159 | `validateForm` stores the map the rules build and returns true exactly when no rule fails |
| ProductEntry.NoKeyIffNoCheckFails | src/components/ProductEntryPortal.tsx:157-158 | the map has no key exactly when no rule fails |
| ProductEntry.NameRequired | src/components/ProductEntryPortal.tsx:126 | `name` is reported exactly when the product name is blank after trimming, with "Product name is required" |
| ProductEntry.OrderNumberRequired | src/components/ProductEntryPortal.tsx:127-128 | `orderNumber` is reported exactly when blank, with "Order number is required" |
| ProductEntry.PricePositive | src/components/ProductEntryPortal.tsx:150-151 | `price` is reported exactly when the price is at most 0 |
| ProductEntry.CategoryRequired | src/components/ProductEntryPortal.tsx:152 | `category` is reported exactly when the category is the empty string (no trimming) |
| ProductEntry.SkuRequired | src/components/ProductEntryPortal.tsx:153 | `sku` is reported exactly when blank, with "SKU is required" |
| ProductEntry.QuantityNotNegative | src/components/ProductEntryPortal.tsx:154-155 | `quantity` is reported exactly when negative; zero passes |
| ProductEntry.UncheckedFieldsNeverReported | src/components/ProductEntryPortal.tsx:123-159 | brand and the dimension inputs never get an error |
| ProductEntry.AddressRule | src/components/ProductEntryPortal.tsx:131-148 | an address rule's key is reported exactly when the field is required and blank, with its message |
| ProductEntry.AddressFieldReported | src/components/ProductEntryPortal.tsx:131-148 | `fromAddress.<f>` / `toAddress.<f>` is reported exactly when `f` is required and blank on that side |
| ProductEntry.AddressFieldMessage | src/components/ProductEntryPortal.tsx:131-148 | a reported address key reads "Sender/Recipient <label> is required" |
| ProductEntry.OptionalAddressFieldsNeverReported | src/components/ProductEntryPortal.tsx:131-148 | `company` and `street2` never produce an error on either side |
| ProductEntry.PrefixedKeyIsAddressCheck | src/components/ProductEntryPortal.tsx:131-148 | a rule writing a key with a side's prefix is an address rule of that side for the field named by the rest |
| ProductEntry.ValidationErrorsForAddress | src/components/ProductEntryPortal.tsx:356-361 | after validation a sub-form shows exactly its blank required fields, each with its message |
| ProductEntry.ValidMeansComplete | src/components/ProductEntryPortal.tsx:123-159 | an accepted record has every required text field non-blank, a positive price, a category and a non-negative quantity |
| ProductEntry.ValidMeansProductComplete | src/components/ProductEntryPortal.tsx:126-155 | acceptance implies the product fields pass |
| ProductEntry.ValidMeansAddressComplete | src/components/ProductEntryPortal.tsx:131-148 | acceptance implies every required address field is filled on that side |
| ProductEntry.CompleteMeansValid | src/components/ProductEntryPortal.tsx:123-159 | such a complete record is accepted |
| ProductEntry.ValidIffComplete | src/components/ProductEntryPortal.tsx:123-159 | acceptance holds exactly for complete records |
| ProductEntry.DefaultIsInvalid | src/components/ProductEntryPortal.tsx:27-69 | the initial record cannot be submitted: price and name are reported, quantity is not |
| ProductEntry.HandleSubmit | src/components/ProductEntryPortal.tsx:161-222 | a failing validation stores its non-empty map and leaves the record as it was; a successful save resets the record; a failed save keeps it; panels never change |
| ProductEntry.RejectionNamesFailingRules | src/components/ProductEntryPortal.tsx:161-164 | a rejected submit marks exactly the keys of the failing rules |
| OpenOrders.SearchStepIsFilter | src/components/OpenOrders.tsx:144-150 | the search step is a filter that keeps everything when the term is empty |
| OpenOrders.StatusStepIsFilter | src/components/OpenOrders.tsx:153-155 | the status step keeps everything for `all` and otherwise exactly the orders of that status |
| OpenOrders.PriorityStepIsFilter | src/components/OpenOrders.tsx:158-160 | the priority step keeps everything for `all` and otherwise exactly the orders of that priority |
| OpenOrders.FilterExtensional | src/components/OpenOrders.tsx:141-162 | filters by pointwise-equal predicates give the same list |
| OpenOrders.MatchesSearch | src/components/OpenOrders.tsx:145-149 | an order matches exactly when the lowered term occurs at some index of its lowered order number, product name or customer name; the empty term matches every order |
| OpenOrders.SearchIgnoresCase | src/components/OpenOrders.tsx:146-148 | lowering the term first does not change which orders match |
| OpenOrders.FilterOrders | src/components/OpenOrders.tsx:140-163 | the three chained steps are one filter by the AND of the three criteria |
| OpenOrders.FilterOrdersSelects | src/components/OpenOrders.tsx:141-162 | the displayed list holds exactly the orders passing all three criteria |
| OpenOrders.FilterOrdersIsSubsequence | src/components/OpenOrders.tsx:141-162 | the displayed list keeps the relative order of the source list |
| OpenOrders.FilterOrdersIdempotent | src/components/OpenOrders.tsx:141-162 | filtering the displayed list again with the same criteria changes nothing |
| OpenOrders.PriorityThenStatus | src/components/OpenOrders.tsx:152-160 | priority then status is one filter by both selectors |
| OpenOrders.SelectionReordered | src/components/OpenOrders.tsx:144-160 | passing all criteria is passing the two selectors and the search |
| OpenOrders.FilterStepsCommute | src/components/OpenOrders.tsx:141-162 | running the steps as priority, status, then search gives the same list |
| OpenOrders.NoCriteriaKeepsAll | src/components/OpenOrders.tsx:141-162 | with no term and both selectors at `all` every order shows |
| OpenOrders.SearchOnly | src/components/OpenOrders.tsx:141-162 | with both selectors at `all`, a non-empty term is the only narrowing |
| OpenOrders.ApplyPatch | src/components/OpenOrders.tsx:188 | `{ ...order, ...updates }` with no fields changes nothing; a carried status wins; without an id the id is kept; with only `status` only the status changes |
| OpenOrders.ApplyPatchIdempotent | src/components/OpenOrders.tsx:188 | applying the same update twice is applying it once |
| OpenOrders.HandleOrderUpdate | src/components/OpenOrders.tsx:186-189 | length and order are kept; orders with another id are unchanged; orders with the id get the update's fields and keep the rest |
| OpenOrders.UpdateOfUnknownIdIsNoOp | src/components/OpenOrders.tsx:186-189 | an id no order has leaves the list unchanged |
| OpenOrders.UpdateIdempotent | src/components/OpenOrders.tsx:186-189 | sending the same update twice equals sending it once |
| OpenOrders.MissedByLetters | src/components/OpenOrders.tsx:145-149 | an order is not matched when each searched field lacks, in both cases, some letter of the term where it would have to be |
| OpenOrders.LaptopMatchesGamingLaptop | src/components/OpenOrders.tsx:74-82 | "laptop" matches the "Gaming Laptop" sample order |
| OpenOrders.LaptopMissesHeadphones | src/components/OpenOrders.tsx:58-65 | "laptop" does not match the "Wireless Headphones" sample order |
| OpenOrders.LaptopMissesSmartWatch | src/components/OpenOrders.tsx:89-96 | "laptop" does not match the "Smart Watch" sample order |
| OpenOrders.LaptopMissesSpeaker | src/components/OpenOrders.tsx:105-112 | "laptop" does not match the "Bluetooth Speaker" sample order |
| OpenOrders.LaptopFilter | src/components/OpenOrders.tsx:145-149 | the "laptop" search over the four samples keeps the laptop alone |
| OpenOrders.LaptopSearchScenario | src/components/OpenOrders.tsx:56-150 | on the sample orders, searching "laptop" with both selectors at `all` shows exactly order "2" |
| OpenOrders.MockStatusUpdateScenario | src/components/OpenOrders.tsx:186-189 | a status update of order "3" changes that one field of that one sample order |
| OrderKanban.StatusesListsEachOnce | src/components/OrderKanban.tsx:16 | the five columns list every status exactly once |
| OrderKanban.OrdersByStatus | src/components/OrderKanban.tsx:18-20 | a column holds only orders of its status, and every order of that status |
| OrderKanban.ColumnKeepsListOrder | src/components/OrderKanban.tsx:18-20 | a column keeps the relative order of the list |
| OrderKanban.ColumnOf | src/components/OrderKanban.tsx:37-103 | a column shows its title, its count equals its number of cards, and the note "No orders in <title lowered>" shows exactly when no order has the status |
| OrderKanban.Columns | src/components/OrderKanban.tsx:36-38 | one column per listed status, in the listed order |
| OrderKanban.Board | src/components/OrderKanban.tsx:36-38 | the board has five columns in the order of `statuses`, each holding its status's orders |
| OrderKanban.OrderInExactlyOneColumn | src/components/OrderKanban.tsx:16-20 | every order lands in the column of its status and in no other |
| OrderKanban.ColumnsPartitionOrders | src/components/OrderKanban.tsx:16-20 | the columns together hold every order exactly as often as the list |
| OrderKanban.TotalCountIsCards | src/components/OrderKanban.tsx:45-47 | the counts shown add up to the number of cards |
| OrderKanban.CountsSumToTotal | src/components/OrderKanban.tsx:16-46 | the column counts add up to the length of the list |
| OrderKanban.HandleStatusChange | src/components/OrderKanban.tsx:22-24 | the selector changes only the status of the orders with that id and nothing else |
| OrderKanban.MovedOrderShowsInNewColumn | src/components/OpenOrders.tsx:140-189 | after a card's status change the board, drawn from the re-filtered list, shows the moved order exactly when it passes the criteria with its new status (a status filter for another status removes it), and then only in the new status's column |
| OrderKanban.OtherColumnsLoseOnlyMovedOrders | src/components/OrderKanban.tsx:18-24 | every other column loses exactly the moved orders and keeps the rest in place |
| OrderTimeline.Insert | src/components/OrderTimeline.tsx:14-16 | inserting into a newest-first list keeps it newest first and adds exactly the one order |
| OrderTimeline.SortedOrders | src/components/OrderTimeline.tsx:14-16 | the sorted copy is newest first and a permutation of the list (same length, same multiset) |
| OrderTimeline.InsertIsStable | src/components/OrderTimeline.tsx:14-16 | insertion puts the order before the orders of its own instant |
| OrderTimeline.SortIsStable | src/components/OrderTimeline.tsx:14-16 | orders created at the same instant keep their relative order |
| OrderTimeline.SortKeepsSortedList | src/components/OrderTimeline.tsx:14-16 | sorting a list that is already newest first returns it |
| OrderTimeline.SortIdempotent | src/components/OrderTimeline.tsx:14-16 | sorting the sorted copy changes nothing |
| OrderTimeline.LatestIsNewest | src/components/OrderTimeline.tsx:14-16 | the first card has the greatest creation date of the list |
| OrderTimeline.Label | src/components/OrderTimeline.tsx:117 | index 0 is labelled `Latest`, index `i` otherwise `i+1 of n` |
| OrderTimeline.View | src/components/OrderTimeline.tsx:14-136 | the timeline shows one card per order, in sorted order, with its label, and the empty note exactly when there are no orders |
| OrderTimeline.LabelsNumberTheCards | src/components/OrderTimeline.tsx:117 | only the first card is `Latest`; the others count strictly upward from 2 to the number of orders |
| OrderTimeline.SortPastNewerHead | src/components/OrderTimeline.tsx:14-16 | an order older only than the head of a sorted list moves to second place |
| OrderTimeline.SortSwapsFirstTwo | src/components/OrderTimeline.tsx:14-16 | four orders with only the first two out of place are sorted by swapping them |
| OrderTimeline.MockTimelineScenario | src/components/OrderTimeline.tsx:14-16 | the sample orders appear as laptop (16 Jan), headphones (15th), watch (12th), speaker (10th) |

## Left out

- Rendering is not modelled: JSX, CSS classes, icons, the colour lookup tables and the truck-icon choice. The model keeps only what decides which records, counts, labels and notes are shown.
- `setTimeout`, `async`/`await`, `alert`, `console.log`, toasts, the loading spinner, `useEffect` scheduling and the `isSubmitting` flag are left out. They are timing and I/O; the save's outcome is the `saveSucceeds` parameter of `HandleSubmit`.
- `parseFloat` is a parameter, a function from the input text to an optional number (none standing for NaN). JavaScript numbers are `real`, so there is no floating-point rounding.
- `createdDate` is an integer key (20240115 for `'2024-01-15'`). `new Date(...)` parsing and `toLocaleDateString` are not modelled; the timeline only compares dates.
- `toLowerCase` maps only ASCII `A`–`Z`. Unicode case mapping is not modelled.
- Input events carry a `Field` or `AddressField` value rather than an arbitrary `name` string. The string routing itself is modelled by `FieldOfInputName` and `FieldNamed` and their round-trip lemmas. A name that designates no input is not modelled.
- Text.Trim: its own contract states the shape of the result. That the result is cut out of the input by removing only white space is the separate lemma `Text.TrimCuts`; as a postcondition it would weigh on every proof about the validator.
- Text.IsBlank: the predicate carries no contract of its own; its meaning (every character is white space) is the lemma `Text.BlankIffAllWhitespace`, for the same reason.
- Seqs.Filter: its own contract states membership and that no occurrence is added. The exact count of every value is the separate lemma `Seqs.FilterCounts`; as a postcondition it would weigh on every proof that filters.
- The other views' rendering and the view switcher in `OpenOrders.tsx` are left out, as are `OrderTable.tsx`, `OrderCard.tsx` and `App.tsx`. Their status handlers forward the same patch as the kanban selector.
- The sorted copy cannot alias the input in a value model. "The input array is not modified" therefore holds trivially and has no lemma.
- The country and state option lists of the address form only populate selectors and are not modelled. So is the product `categories` list (ProductEntryPortal.tsx:80-87). The category rule does not consult it, so a category outside the list is accepted, as in the code.
