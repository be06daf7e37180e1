# ResultJano roll-range batch model

ResultJano fetches university exam results for a range of roll numbers. It
drives the results portal in a headless browser and merges the downloaded PDFs
into one document. There are two servers:

- `server.cjs`, whose `/result` handler also picks the semester and branch links;
- the backend in `pdf-backend-master/server.cjs`, whose `/` handler looks up a
  result by name.

The browser-side form in `pdf-frontend-main/script.js` validates the range
before posting it to the backend. The merger `mergePDFs` concatenates every
downloaded PDF.

This project models the logic around the browser:

- how a roll range expands into roll numbers;
- how each roll is classified as found or not found;
- which anchor is clicked;
- how the semester label is spelled;
- the order of the client's guards and its rendering of a reply;
- what the merger writes.

The browser, the portal and the download folder are inputs:

- an outcome per roll (`Batch.Fetch`, or the backend's `BackendServer.Lookup`);
- what the portal page shows (`ResultServer.Portal`);
- a directory listing with a `load` function from file name to page sequence.

The model is written in plain Dafny modules:

| file | module | what it holds |
|---|---|---|
| optional.dfy | `Optional` | `Option`, and JavaScript truthiness of a string field |
| js_string.dfy | `JsString` | the string built-ins the code relies on: `slice`, `trim`, `padStart(4, '0')`, `toString`, `parseInt` (whitespace, sign, `0x` prefix, longest digit prefix, NaN as None), ASCII `toLowerCase`, `includes`, `endsWith`; a string is a sequence of Unicode scalar values |
| rolls.dfy | `Rolls` | prefix and sequence number of a roll; the rolls the loop generates |
| seqs.dfy | `Seqs` | order-preserving selection (`Filter`), the shape of every push-if loop |
| batch.dfy | `Batch` | per-roll accounting: `notFound`, downloaded rolls, rolls the browser is asked about; the loop itself as a method |
| links.dfy | `Links` | the first anchor whose lower-cased text holds every lower-cased needle |
| semester.dfy | `Semester` | `toRomanNumeral` and the label `toRomanNumeral(parseInt(semester) \|\| semester)` |
| merge.dfy | `Merge` | `mergePDFs` over abstract page sequences, as a function and as the loop |
| responses.dfy | `Responses` | the replies and their HTTP status codes |
| result_server.dfy | `ResultServer` | the `/result` handler of `server.cjs` |
| backend_server.dfy | `BackendServer` | the `/` handler of `pdf-backend-master/server.cjs` |
| frontend.dfy | `Frontend` | the form's guards, and the page shown for a reply |

Behaviour of the code a reader might not expect, all of it modelled:

- A navigation error is not retried.
- A merge with no `.pdf` entry writes a zero-page document instead of failing.
- The merge order is the directory listing's order.
- In the backend, a result name that matches no anchor fails each roll
  separately, and the batch goes on.
- In `server.cjs`, the in-page callback refers to `res`, which does not exist in
  the page. So a branch search with no match throws into the general 500
  handler. The 404 written after that callback is never produced.
- A missing `semester` makes `toRomanNumeral` throw before the `try` block. The
  handler's promise then rejects. Under Express 4, which the model assumes,
  no reply is written (see "## Left out").
- The two servers derive the prefix differently:
  - `server.cjs` uses `slice(0, -4)`;
  - the backend uses `slice(0, length - 4)`.

  The results differ only for a three-character start roll. Both are modelled.

## Model

| member | source | states |
|---|---|---|
| Rolls.PrefixOf | server.cjs:53 | the prefix is the start roll minus its last four characters, and empty for a shorter roll |
| Rolls.PrefixDerivationsAgree | pdf-backend-master/server.cjs:43 | the backend's `slice(0, length - 4)` and the root's `slice(0, -4)` agree exactly when the start roll is not three characters long |
| JsString.LastFour | server.cjs:54-55 | `slice(-4)` yields the last four characters, or the whole string when it is shorter |
| Rolls.Expand | server.cjs:136-137 | the loop runs max(0, end - start + 1) times, and none when either bound is NaN; the k-th roll is the prefix followed by start + k padded to four digits |
| Rolls.ExpandDistinct | server.cjs:136-137 | no generated roll appears twice |
| Rolls.RollIdInjective | server.cjs:137 | different counters give different roll numbers, whatever the prefix |
| Rolls.RollIdRoundTrip | server.cjs:137 | for a counter in 0..9999, `parseInt(roll.slice(-4))` gives back the counter and `slice(0, -4)` gives back the prefix |
| Rolls.ExpandAscending | server.cjs:136-137 | with counters in 0..9999, the generated rolls carry the sequence numbers start, start + 1, ..., in strictly ascending order |
| Rolls.GeneratedRollsHaveRollLength | server.cjs:136-142 | from a ten-character start roll, every roll either server generates has ten characters, so the length guard never fires |
| JsString.ParseIntOfPadded | server.cjs:137 | parseInt of a zero-padded counter in 0..9999 is that counter |
| JsString.ParseIntShortBound | server.cjs:54-55 | a number parsed from at most four characters lies in -999..9999 |
| JsString.NumberToStringInjective | server.cjs:137 | `toString` of different integers gives different strings |
| JsString.TrimStartSpec | pdf-frontend-main/script.js:4-6 | trimming the front removes exactly a whitespace prefix and leaves a string that starts with a non-space |
| JsString.TrimEnd | pdf-frontend-main/script.js:4-6 | trimming the back removes exactly a whitespace suffix and leaves a string that ends with a non-space |
| JsString.ToLowerSpec | server.cjs:114-115 | lower-casing leaves no ASCII capital: each capital becomes the small letter at the same alphabet position, every other character is kept, and lower-casing again changes nothing |
| JsString.IncludesIffOccurs | server.cjs:115 | `includes` holds exactly when the needle occurs at some index |
| Links.FindLink | server.cjs:113-120 | a found anchor index lies inside the anchor list |
| Links.FindLinkSpec | server.cjs:113-120 | the clicked anchor matches every needle and no earlier anchor does; nothing is clicked exactly when no anchor matches |
| Links.MatchesIgnoresCase | server.cjs:114-115 | an anchor matches exactly when its lower-cased text does, so anchor texts that differ only in letter case match the same needles |
| Links.MatchesIffOccurs | pdf-backend-master/server.cjs:78-87 | an anchor matches when its lower-cased text holds each lower-cased needle at some position |
| Semester.ToRomanNumeral | server.cjs:31-37 | 1..8 get the portal's ordinals Ist, IInd, ..., VIIIth in order; any other number gets a label that parseInt reads back as that number |
| JsString.ParseIntOfNumberToString | server.cjs:36 | parseInt reads the decimal `toString` of any integer back, sign included |
| Semester.SemesterLabel | server.cjs:50 | the label is missing exactly when the semester is; a semester that does not parse is used unchanged |
| Semester.RomanLabelKinds | server.cjs:31-37 | a label starts with I or V exactly for the numbers 1..8; every other number falls back to its decimal string |
| Semester.ToRomanNumeralInjective | server.cjs:31-37 | different semester numbers get different labels |
| Semester.SemesterLabelOfNumber | server.cjs:50 | a semester sent as a positive decimal number gets the label toRomanNumeral gives that number |
| Seqs.Filter | pdf-backend-master/utils/mergePDFs.cjs:6 | a selection is never longer than its input |
| Batch.RunBatch | server.cjs:136-169 | the loop's notFound, downloaded rolls and looked-up rolls are the order-preserving selections of the generated rolls by the length guard and the outcome |
| Batch.ListedIff | server.cjs:138-168 | a roll is in notFound exactly when it was generated and failed the length guard or got a failing outcome; it counts as downloaded exactly when it passed both |
| Batch.LookedUpIff | server.cjs:138-142 | the browser is asked about exactly the generated rolls of length ten |
| Batch.OutcomesPartition | server.cjs:136-169 | notFound and the downloaded rolls split the batch; each generated roll is in exactly one of them |
| Batch.NotFoundDistinct | pdf-backend-master/server.cjs:64-127 | notFound never lists a roll twice |
| Batch.NotFoundAscending | server.cjs:136-169 | with counters in 0..9999, notFound lists rolls in strictly ascending sequence-number order |
| Merge.PdfEntriesIff | pdf-backend-master/utils/mergePDFs.cjs:6 | exactly the listed names ending in ".pdf" are merged |
| Merge.MergeFiles | pdf-backend-master/utils/mergePDFs.cjs:9-15 | an aborted merge names a merged entry whose load failed |
| Merge.MergePdfs | pdf-backend-master/utils/mergePDFs.cjs:5-19 | a merge that aborts names a listed entry ending in ".pdf" whose load failed |
| Merge.MergeLoop | pdf-backend-master/utils/mergePDFs.cjs:5-19 | the loop as written computes the merge outcome |
| Merge.MergeWrittenIff | pdf-backend-master/utils/mergePDFs.cjs:9-18 | the output is written exactly when every entry loads, and it is then the entries' pages concatenated in listing order |
| Merge.MergeAbortsAt | pdf-backend-master/utils/mergePDFs.cjs:11-12 | the merge aborts at the first entry that fails to load |
| Merge.ConcatSnoc | pdf-backend-master/utils/mergePDFs.cjs:14 | adding one more document appends its pages after the earlier ones |
| Merge.ConcatLength | pdf-backend-master/utils/mergePDFs.cjs:13-14 | the output page count is the sum of the inputs' page counts |
| Merge.ConcatIndex | pdf-backend-master/utils/mergePDFs.cjs:13 | page j of input i sits right after the pages of the inputs before it, so every page is copied in order and none is dropped |
| Merge.NoPdfWritesEmpty | pdf-backend-master/utils/mergePDFs.cjs:6-18 | with no ".pdf" entry, a zero-page document is written and nothing fails |
| ResultServer.HandleResult | server.cjs:43-195 | 400 exactly when a roll field is missing or empty, and then no browser is launched; a browser is launched before any roll is looked up; rolls are looked up only on the way to a merge reply |
| ResultServer.BranchLinkClicked | server.cjs:108-133 | the branch link is clicked exactly when a branch is given and some anchor's text holds both the semester label and the branch, ignoring ASCII case |
| ResultServer.SemesterLinkMissingIff | server.cjs:92-99 | the 404 comes exactly from a missing semester link, names the selector, and follows no roll lookup |
| ResultServer.MissingBranchIsGeneralError | server.cjs:108-126 | a missing branch always ends in the general 500 reply with no roll looked up |
| ResultServer.RootNotFoundIff | server.cjs:136-169 | after the loop, the reply lists exactly the generated rolls that were too long or short, raised a dialog or threw, whether or not the merge succeeded |
| ResultServer.RootMergedIff | server.cjs:176-189 | the reply is a success exactly when every ".pdf" entry loads and the folder is cleaned; it then names /merged/Merged_result.pdf |
| ResultServer.RootNotFoundOrdered | server.cjs:136-169 | the reported list has no duplicates and, with counters in 0..9999, ascends |
| ResultServer.FifthSemesterCanOpenFourth | server.cjs:113-115 | semester 5 is labelled "Vth", which also occurs in "IVth", so a fourth-semester link listed first is clicked |
| ResultServer.ThreeRolls | server.cjs:53-55 | ABCDEF0001 to ABCDEF0003 expands to the three rolls in order |
| ResultServer.ThreeRollBatch | server.cjs:136-169 | of those three, if only the second raises a dialog, only the second is reported not found |
| BackendServer.HandleBackend | pdf-backend-master/server.cjs:35-149 | 400 exactly when any of the three fields is missing or empty, and then no browser is launched and no roll is looked up |
| BackendServer.BackendFailed | pdf-backend-master/server.cjs:78-126 | a roll fails exactly when the page throws, no anchor's text holds the result name ignoring ASCII case, or the submission raises a dialog or throws |
| BackendServer.BackendNotFoundIff | pdf-backend-master/server.cjs:64-127 | every generated roll of length ten is looked up, whatever happened to earlier rolls; a roll is listed exactly when the length guard rejects it, the page throws, no anchor mentions the result name, or the submission raises a dialog or throws |
| BackendServer.BackendReplyIff | pdf-backend-master/server.cjs:136-148 | 500 with notFound exactly when some ".pdf" entry fails to load; success exactly when all load and the folder is cleaned, with the fixed download URL |
| BackendServer.BackendNotFoundOrdered | pdf-backend-master/server.cjs:64-127 | the reported list has no duplicates, ascends for counters in 0..9999, and together with the downloaded rolls holds every generated roll once |
| Frontend.Validate | pdf-frontend-main/script.js:4-41 | an accepted form has two ten-character rolls sharing their first six characters, a non-empty result name and 1 <= total <= 200 |
| Frontend.FirstFailingGuard | pdf-frontend-main/script.js:9-41 | each alert fires exactly when its guard fails and all earlier guards pass; the form is posted exactly when all pass |
| Frontend.SubmitTotal | pdf-frontend-main/script.js:29-31 | the posted values are the trimmed inputs, and total is the backend's loop count for them |
| Frontend.SubmitMatchesBackendBatch | pdf-frontend-main/script.js:29-41 | for an accepted form the backend generates exactly total rolls, and all of them reach the browser |
| Frontend.AllRollsLookedUp | pdf-backend-master/server.cjs:64-70 | from a ten-character start roll the backend asks the browser about every roll it generates |
| Frontend.Render | pdf-frontend-main/script.js:67-94 | the result is shown exactly for an ok reply; found plus not found then equals total, and the preview of the download URL is shown exactly when foundCount > 0 and the URL is non-empty |
| Frontend.FoundCountOfBatch | pdf-frontend-main/script.js:74-94 | for a backend batch of total rolls answered with a success, foundCount is the number of downloaded rolls and the preview is shown exactly when that number is positive |
| Frontend.FoundCountIsDownloads | pdf-frontend-main/script.js:74-94 | for an accepted form with a successful reply, foundCount is the number of downloaded rolls, never negative; the preview is shown exactly when some roll was downloaded |

## Left out

- Browser automation is not modelled: launch, navigation, clicks, typing, `waitForSelector`, the fixed delays, download configuration, console forwarding and `debug-page.html`. It is external and timing-dependent. Each roll's result is an input outcome, and the portal page is an input.
- A dialog that arrives after the settle delay is not modelled. The outcome is what the code sees once the delay has passed.
- Stale `page.once('dialog')` listeners are not modelled. A roll without a dialog leaves its listener behind, and that listener also fires on a later roll's dialog. The later roll is listed either way, but the second `accept()` can reject unhandled.
- Failures of `cleanFolder` before the run, of `puppeteer.launch` and of `newPage` are not modelled. They happen outside every try block and would end the request with no reply. The model assumes they succeed.
- Invalid CSS selectors are not modelled. For example, `semesterType` "Odd" with `academicYear` "2023/24" gives the selector `#linkOddSem2023/24`, which is not valid CSS because "/" cannot appear in an identifier, so `page.$` throws. The model only has a selector that is present or absent.
- Request fields that are not strings, and `null` fields, are not modelled. A JSON body could send numbers or objects. A `null` field prints as "null" in a template literal, but the model treats it as missing.
- Semester strings that name inherited object properties are not modelled. Examples are "constructor" and "toString". For these, `romanNumerals[s]` is a function rather than a label.
- `Number` is an IEEE double. The model uses exact integers:
  - parseInt of more than about 16 digits loses precision;
  - `toString` switches to exponent form from 1e21;
  - the roll counter is exact.
- Case mapping beyond ASCII is not modelled. `toLowerCase` maps only the letters A-Z.
- Characters beyond U+FFFF are not modelled as JavaScript sees them. A model string is a sequence of Unicode scalar values, while `length`, `slice(0, 6)` and `slice(-4)` count UTF-16 code units. Such a character counts 2 towards the length guards (`pdf-frontend-main/script.js:15`, `server.cjs:138`, `pdf-backend-master/server.cjs:66`), and a slice can split it. The model agrees with the code on text made of characters up to U+FFFF.
- The merger's own I/O failures are not modelled: `readdirSync`, `writeFileSync` and `save`. A merge fails only when a file does not load.
- No link is made between the downloaded rolls and the merged files. The merge reads the directory, not the loop's results, so the listing and the loads are separate inputs.
- `examType` is received but never used.
- The GET routes, static file serving, CORS, logging and the unused timestamp are not modelled. Neither are the client's progress bar and log lines, or `script.js` at the repository root, which is UI glue.
- ResultServer.HandleResult: assumes Express 4 and a Node process that survives an unhandled promise rejection. Under Express 5 the throw at `server.cjs:50` for a missing `semester` would be answered with 500 instead of `NoReply`, and a Node release that ends the process on an unhandled rejection would drop every request in flight.
- ResultServer.HandleResult: assumes the second `dialog.accept()` of a stale listener (`server.cjs:150-154`) rejects harmlessly. When a roll without a dialog is followed by one with a dialog, both listeners fire; the model lists the later roll and carries on, which holds only under the runtime assumed above.
- ResultServer.HandleResult: assumes every `browser.close()` succeeds. If the one at `server.cjs:171` threw, the catch block would send the general 500 after rolls were already looked up, contrary to "rolls are looked up only on the way to a merge reply". A failing close at `server.cjs:95`, `129` or `192` is not modelled either.
- BackendServer.HandleBackend: assumes the same runtime (Express 4, a process that survives an unhandled rejection). A failing `cleanFolder` after the merge is modelled as `NoReply`, and a roll whose dialog also reaches a stale listener (`pdf-backend-master/server.cjs:107-111`) is modelled as listed with the batch going on; both hold only if the rejected promise does not end the process.
- BackendServer.HandleBackend: assumes `browser.close()` at `pdf-backend-master/server.cjs:129` succeeds. It is outside every try block, so a failure there would leave the request with no reply.
- Frontend.Render: the `Pending` screen for a `NoReply` reply assumes the server process stays up and the request stays open. If the process ended, the client's `fetch` would fail and the page would show its failure message (`FetchFailed`) instead.
- A client-side network failure is not modelled. `Frontend.Render` covers only replies the backend sends, or the case where it never sends one.
- Batch.NotFoundAscending: states ascending sequence numbers only for counters in 0..9999. Outside that range, `parseInt(slice(-4))` does not give the counter back; for example, the roll for -1 ends in "00-1". There, loop order is stated by notFound being the order-preserving selection of the generated rolls.
