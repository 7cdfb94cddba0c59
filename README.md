# Receipt page state of the bill splitter

This project models the table-editing logic of the bill splitter's receipt
page (`frontend/my-app/src/app/page.tsx`). The page keeps three pieces of
state:

- the text typed into the names box;
- the list of participants saved from it;
- the rows of an editable receipt table.

Each row is one JavaScript object. It holds the parsed line item's
`Quantity`, `Item` and `price`. It also holds a checkbox flag for
`everyone` and one flag per participant, in the same key space.

The model has four parts, one module each, plus a small `Wrappers` module:

- `NameList` (names.dfy) covers the "Save Names" button. It models
  `split(',')`, `trim()` and `filter(Boolean)` as functions. It proves that
  every saved name is non-empty, comma-free and trimmed, and that the count
  is at most the number of commas plus one. It also shows that parsing goes
  segment by segment, in order, and keeps duplicates. Re-parsing the
  comma-joined result gives the same list.
- `ReceiptRow` (rows.dfy) covers the values, the rows and the augmentation
  done after a receipt upload. As in the source, the augmentation copies
  each row and then writes `false` under `everyone` and under each name in a
  loop. A row is a `map<string, Value>` of its own properties, so a
  participant named `price` overwrites the price, exactly as the source
  does.
- `ReceiptTable` (table.dfy) gives the row list after each of the two cell
  edits as a function: only the one field of the one row changes. Its lemmas
  prove that ticking a box twice restores it, that a later edit of the same
  cell wins, and that edits of different cells commute.
- `Page` (page.dfy) models the component itself as the class `ReceiptPage`.
  Its fields are the state variables and its methods are the event handlers.
  Each handler states the whole new state in terms of the functions above,
  and each keeps the invariant that the saved names are clean.

JavaScript truthiness, which `filter(Boolean)` and `!row[field]` rely on,
is written out in `ReceiptRow.Truthy`: `undefined`, `null`, `false`, `0` and
`""` are falsy. A read `row[field]` goes through the prototype chain
(`ReceiptRow.Lookup`). A key the row lacks reads as `undefined`, except the
names of `Object.prototype`'s properties (`constructor`, `toString`,
`__proto__` and the others), which read as a function or an object. So
ticking a box whose key is absent stores `true`, but stores `false` when
the key is, say, `constructor`. Absent keys happen for a name saved after
the upload, because saving names does not touch the rows already in the
table. The augmentation writes its flags by plain assignment, so a
participant called `__proto__` gets no own flag: the assignment reaches the
prototype setter, which ignores a non-object value.

The repository's code only parses the names and the receipt and edits the
table. Nothing in `page.tsx` or `backend/main.py` splits a cost among the
participants, so the model has none of that either. The model states what
the code does: `Quantity` and `price` cells hold whatever `parseFloat`
returns, and the checkbox flags live in each row's own key space, beside
the receipt fields (page.tsx:5-11).

## Model

| member | source | states |
|---|---|---|
| `NameList.Split` | frontend/my-app/src/app/page.tsx:23 | `split(',')` gives one more piece than there are commas; no piece holds a comma; joining the pieces with commas restores the input |
| `NameList.SplitJoin` | frontend/my-app/src/app/page.tsx:23 | splitting undoes joining for any non-empty list of comma-free pieces, so the pieces are determined by the input |
| `NameList.SplitAppend` | frontend/my-app/src/app/page.tsx:23 | splitting `a + "," + b` gives the pieces of `a` followed by the pieces of `b` |
| `NameList.SplitSegment` | frontend/my-app/src/app/page.tsx:23 | a comma-free string splits into itself alone |
| `NameList.TrimStart` | frontend/my-app/src/app/page.tsx:23 | the result is a suffix of the input, everything dropped is whitespace, and it does not start with whitespace |
| `NameList.TrimEnd` | frontend/my-app/src/app/page.tsx:23 | the result is a prefix of the input, everything dropped is whitespace, and it does not end with whitespace |
| `NameList.Trim` | frontend/my-app/src/app/page.tsx:23 | `trim()` leaves no whitespace at either end and is empty exactly when the input is all whitespace |
| `NameList.TrimInfix` | frontend/my-app/src/app/page.tsx:23 | `trim()` returns the infix of the input that has only whitespace before and after it; with `Trim`'s contract this fixes the result |
| `NameList.TrimClean` | frontend/my-app/src/app/page.tsx:23 | trimming a string with no whitespace at its ends changes nothing |
| `NameList.TrimAll` | frontend/my-app/src/app/page.tsx:23 | `.map(name => name.trim())` keeps the length and trims each piece, position by position, into a new list |
| `NameList.TrimAllAppend` | frontend/my-app/src/app/page.tsx:23 | mapping `trim` over `xs + ys` gives the trimmed `xs` followed by the trimmed `ys` |
| `NameList.DropEmpty` | frontend/my-app/src/app/page.tsx:23 | `filter(Boolean)` keeps only non-empty strings of the input, never lengthens it, and keeps an all-non-empty list as it is |
| `NameList.DropEmptyCounts` | frontend/my-app/src/app/page.tsx:23 | `filter(Boolean)` keeps each non-empty string exactly as many times as it occurs and drops every empty one |
| `NameList.DropEmptyAppend` | frontend/my-app/src/app/page.tsx:23 | filtering `xs + ys` gives the filtered `xs` followed by the filtered `ys`, so the input order is kept |
| `NameList.ParseNames` | frontend/my-app/src/app/page.tsx:23 | every saved name is non-empty, comma-free and has no leading or trailing whitespace; there are at most (commas + 1) names |
| `NameList.ParseNamesAppend` | frontend/my-app/src/app/page.tsx:23 | the names of `a + "," + b` are the names of `a` followed by those of `b`: input order kept, nothing merged |
| `NameList.ParseNamesSegment` | frontend/my-app/src/app/page.tsx:23 | a comma-free segment yields its trimmed text, or nothing when that is empty |
| `NameList.ParseNamesBlank` | frontend/my-app/src/app/page.tsx:23 | an all-whitespace segment yields no name |
| `NameList.ParseNamesKeepsDuplicates` | frontend/my-app/src/app/page.tsx:23 | a clean name entered twice is saved twice (no de-duplication) |
| `NameList.ParseJoinedNames` | frontend/my-app/src/app/page.tsx:23 | a list of clean names joined with commas parses back to exactly that list |
| `NameList.ParseNamesIdempotent` | frontend/my-app/src/app/page.tsx:22-25 | parsing the saved names again, joined with commas, gives the same list |
| `ReceiptRow.Truthy` | frontend/my-app/src/app/page.tsx:99 | a read is falsy exactly when it is `undefined`, `null`, `false`, `0` or `""` |
| `ReceiptRow.MissingKeyTruthiness` | frontend/my-app/src/app/page.tsx:99 | `row[field]` (`Lookup`) on a key missing from the row falls through to `Object.prototype`: it reads as truthy exactly when the key names one of that object's properties, and as `undefined` otherwise |
| `ReceiptRow.AugmentRow` | frontend/my-app/src/app/page.tsx:68-74 | the new row has the old keys plus `everyone` and every name except `__proto__` (whose assignment reaches the prototype setter unless the row has its own `__proto__`); every flag key present holds `false`, every other key keeps its value |
| `ReceiptRow.AugmentRows` | frontend/my-app/src/app/page.tsx:67-75 | the row count is unchanged and row `i` of the result is the augmentation of input row `i` |
| `ReceiptRow.AugmentationIsUnique` | frontend/my-app/src/app/page.tsx:67-75 | the augmentation's description fixes the new row completely |
| `ReceiptRow.AugmentationKeepsReceiptFields` | frontend/my-app/src/app/page.tsx:67-75 | with no name equal to `Quantity`, `Item` or `price`, those fields keep their values and types, `everyone` is unchecked and every name's flag other than `__proto__` reads `false` |
| `ReceiptRow.ProtoNameGetsNoFlag` | frontend/my-app/src/app/page.tsx:71-73 | a participant called `__proto__` gets no own flag on a row without an own `__proto__`, and its box reads as truthy; with an own `__proto__` the flag is `false` |
| `ReceiptRow.NameCollisionOverwritesField` | frontend/my-app/src/app/page.tsx:71-73 | a name equal to `Quantity`, `Item` or `price` replaces that field with `false`, so the row no longer has the declared `ParsedRow` shape |
| `ReceiptTable.EditKeepsReceiptFields` | frontend/my-app/src/app/page.tsx:85-91 | typing into any cell of a row of the declared `ParsedRow` shape keeps that shape: the stored value (`EditedValue`, page.tsx:89) is a number in `Quantity` and `price` and text elsewhere |
| `ReceiptTable.WithField` | frontend/my-app/src/app/page.tsx:86-90 | the copied list has the same length; only row `index` differs, and in it only `field`, which holds the new value |
| `ReceiptTable.Toggled` | frontend/my-app/src/app/page.tsx:96-100 | same length; only `field` of row `index` changes, becoming an own property that holds the negation of what `row[field]` reads as |
| `ReceiptTable.ToggleMissingField` | frontend/my-app/src/app/page.tsx:95-101 | ticking a box whose key the row lacks reads it through the prototype chain (`Lookup`, page.tsx:99) and stores `true`, or `false` when the key names an `Object.prototype` property |
| `ReceiptTable.ToggleTwice` | frontend/my-app/src/app/page.tsx:95-101 | ticking the same box twice leaves its original truth value, stored as a boolean, and changes nothing else |
| `ReceiptTable.ToggleInvolution` | frontend/my-app/src/app/page.tsx:95-101 | on a field that already holds a boolean, ticking twice gives back the original row list |
| `ReceiptTable.EditOverwrites` | frontend/my-app/src/app/page.tsx:85-91 | two edits of the same cell leave only the second value |
| `ReceiptTable.EditsCommute` | frontend/my-app/src/app/page.tsx:85-101 | edits of two different cells give the same list in either order |
| `Page.ReceiptPage.constructor` | frontend/my-app/src/app/page.tsx:15-18 | every state variable starts empty and the invariant holds |
| `Page.ReceiptPage.EditNamesInput` | frontend/my-app/src/app/page.tsx:118 | the names box text is replaced; names and rows are unchanged |
| `Page.ReceiptPage.SubmitNames` | frontend/my-app/src/app/page.tsx:22-25 | the names become `ParseNames` of the box text, so the clean-names invariant holds; the rows are unchanged |
| `Page.ReceiptPage.Upload` | frontend/my-app/src/app/page.tsx:49-80 | a failed request empties the table; otherwise the table holds the parsed rows augmented with unchecked flags for the names of the render whose button was clicked; names and box text unchanged |
| `Page.ReceiptPage.InputChange` | frontend/my-app/src/app/page.tsx:85-92 | the rows become `WithField` of the old rows with the value `EditedValue` gives (page.tsx:89): `parseFloat(value)` in `Quantity`/`price`, the raw text elsewhere; names and box text unchanged |
| `Page.ReceiptPage.CheckboxChange` | frontend/my-app/src/app/page.tsx:95-102 | the rows become `Toggled` of the old rows; names and box text unchanged |
| `Page.CheckboxTwice` | frontend/my-app/src/app/page.tsx:95-102 | two clicks on one checkbox through the page's handler leave the rows equal to the old ones with that field set to the boolean it was read as, so its tick is restored; names and box text unchanged |

## Left out

- The allocation engine (subtotal, tax and tip, per-person shares, the text breakdown): the repository's code has no implementation of it.
- `fileToBase64`, the `fetch` call, `response.ok`, `setLoading` and the `!file` guard in `handleUpload` (page.tsx:35-62, 81): browser file reading, network I/O and a loading flag. `Page.ReceiptPage.Upload` takes the service's answer as a parameter.
- `handleFileChange` (page.tsx:28-32): it stores a browser `File` object, which the model has no counterpart for.
- `console.error(error)` in the `catch` branch (page.tsx:78): console output; only the `setData([])` beside it is modelled.
- A response whose `parsed_data` is not a list, which makes `.map` throw and ends in the `catch` branch: the model's parameter is already a row list or a failure.
- `parseFloat`: passed in as an uninterpreted `string -> real`. Its parsing rules, NaN and the floating-point format are not modelled, so NaN's falsiness is not captured by `ReceiptRow.Truthy`.
- `Page.ReceiptPage.InputChange`, `Page.ReceiptPage.CheckboxChange`: require `index < |data|`. The source does not check the index, and every call site passes one taken from `data.map`. Otherwise `handleInputChange` would extend the array, with holes when `index > |data|`, and `handleCheckboxChange` would throw a `TypeError` reading `updatedData[index][field]` and leave the state unchanged.
- `ReceiptRow.AugmentationKeepsReceiptFields`: promises a `false` flag for every name except `__proto__`, because the source's assignment creates no own `__proto__` flag on a row without one; `ReceiptRow.ProtoNameGetsNoFlag` states that case.
- Assigning an object to `__proto__`, which would change a row's prototype: the page only ever assigns booleans, numbers and strings.
- JavaScript strings are UTF-16 code units; the model's strings are sequences of Unicode scalar values.
- React's asynchronous batching of state updates: each handler is modelled as an immediate assignment.
- The JSX rendering (page.tsx:104-229), `layout.tsx`, `tailwind.config.ts` and the backend service `backend/main.py` (a configuration read, an OpenAI request and a pandas conversion).
