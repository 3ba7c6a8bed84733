# BrewBuddy kiosk — a Dafny model of the ordering core

BrewBuddy is a voice-ordering kiosk for a coffee shop. A customer picks a
language, speaks an order, sees a confirmation with a QR code, watches the
order's status move from pending through preparing to ready, and starts
over. This project models the logic behind those screens, all of which
lives in `brewbuddy-app/src/App.tsx`:

- `types.dfy` (module `Types`): the languages, the three statuses, the six
  screens and the order record.
- `transcript.dfy` (module `Transcript`): JavaScript's `trim` (with the
  exact set of characters it strips), `split(',')`, the item pipeline
  `split(',').map(trim).filter(Boolean)` and the blank-transcript test.
- `ordering.dfy` (module `OrderSubmit`): the submit handler of the order
  page, which either refuses a blank transcript or builds a pending order.
- `voice.dfy` (module `Voice`): the voice-input hook. It covers the
  recognizer's locale, the loop that gathers final results, the guarded
  start and stop requests, and the `isSupported` value the order page
  renders. It is a class whose fields are the hook's state.
- `status.dfy` (module `StatusSim`): the order-status hook. It is a class
  whose `UpdateStatus` method is one firing of the status timer.
- `qrcode.dfy` (module `QrCode`): the placeholder QR picture. It covers
  the 32-bit wrapping string hash over UTF-16 code units and the
  25 × 25 cell rule.
- `kiosk.dfy` (module `Kiosk`): the screen-flow controller `App`. It is a
  class whose handler methods require the screen that renders the control
  wired to them. Its invariant `Valid` says:
  - an order is held exactly on the confirmation, tracking and ready screens;
  - the language screen appears only before a language is picked;
  - a held order is pending, in the selected language, with a total from 5
    to 24 and well-formed items.

Randomness enters as parameters: `id` is the order identifier and `roll`
is `Math.floor(Math.random() * 20)`. Browser events enter as method calls.

## Model

| member | source | states |
|---|---|---|
| Types.Rank | brewbuddy-app/src/App.tsx:180 | the status flow's order: pending is first (0), ready is last (2), and every status has a position below 3 |
| Transcript.TrimEnd | brewbuddy-app/src/App.tsx:309 | the result is a prefix of the input and does not end in whitespace |
| Transcript.Trim | brewbuddy-app/src/App.tsx:309 | `trim` returns a string that neither starts nor ends with a JavaScript whitespace or line-terminator character |
| Transcript.TrimEndCutsWhitespace | brewbuddy-app/src/App.tsx:309 | everything that trimming the end removes is whitespace |
| Transcript.TrimUnique | brewbuddy-app/src/App.tsx:309 | trim is characterised by its result: a tight middle flanked by whitespace on both sides is exactly what `trim` returns |
| Transcript.TrimIdempotent | brewbuddy-app/src/App.tsx:309 | trimming twice is trimming once |
| Transcript.BlankIffAllWhitespace | brewbuddy-app/src/App.tsx:299 | `!transcript.trim()` holds exactly when every character of the transcript is whitespace (both directions) |
| Transcript.Split | brewbuddy-app/src/App.tsx:309 | `split(',')` yields one more piece than there are commas |
| Transcript.SplitCommaFree | brewbuddy-app/src/App.tsx:309 | no piece of a split contains a comma |
| Transcript.JoinSplit | brewbuddy-app/src/App.tsx:309 | joining the pieces with commas gives back the transcript, so split loses no character |
| Transcript.SplitJoin | brewbuddy-app/src/App.tsx:309 | splitting comma-free pieces joined by commas gives back exactly those pieces |
| Transcript.SplitAtComma | brewbuddy-app/src/App.tsx:309 | splitting `a + "," + b` is splitting `a` and `b` separately and concatenating |
| Transcript.SplitNoComma | brewbuddy-app/src/App.tsx:309 | a comma-free string splits into itself alone (the empty string included) |
| Transcript.TrimKeepsCommaFree | brewbuddy-app/src/App.tsx:309 | trimming a comma-free piece leaves it comma-free |
| Transcript.TrimAll | brewbuddy-app/src/App.tsx:309 | `.map(item => item.trim())` keeps the length and trims element by element |
| Transcript.DropEmpty | brewbuddy-app/src/App.tsx:309 | `.filter(Boolean)` never lengthens its input |
| Transcript.DropEmptyKeeps | brewbuddy-app/src/App.tsx:309 | every element the filter keeps is non-empty and comes from its input |
| Transcript.DropEmptyAppend | brewbuddy-app/src/App.tsx:309 | the filter keeps order: filtering a concatenation concatenates the filtered halves |
| Transcript.DropEmptyKeepsNonEmpty | brewbuddy-app/src/App.tsx:309 | the filter is the identity on a sequence without empty strings and removes a lone empty string |
| Transcript.DropEmptyNoneIff | brewbuddy-app/src/App.tsx:309 | the filter leaves nothing exactly when every element is empty |
| Transcript.ParseItems | brewbuddy-app/src/App.tsx:309 | there is at most one item per comma-separated piece |
| Transcript.ParseItemsWellFormed | brewbuddy-app/src/App.tsx:309 | every item is non-empty, trimmed, comma-free and the trim of one of the transcript's pieces |
| Transcript.ParseOfJoin | brewbuddy-app/src/App.tsx:309 | pieces joined with commas parse back to the pieces trimmed, in order, with repeats kept (so "latte, croissant, latte" gives three items) |
| Transcript.NoItemsIff | brewbuddy-app/src/App.tsx:309 | a transcript yields no items exactly when every one of its pieces trims to nothing |
| Transcript.SplitOfCommas | brewbuddy-app/src/App.tsx:309 | every piece of a string made only of commas is empty |
| Transcript.CommasOnlyGiveNoItems | brewbuddy-app/src/App.tsx:298-309 | a transcript of commas alone passes the blank test, yet it yields an empty item list |
| OrderSubmit.BuildOrder | brewbuddy-app/src/App.tsx:298-314 | a blank transcript (all whitespace) is refused; any other transcript gives a pending order in the current language, with the given id, the parsed items and the total `roll + 5`, so every total from 5 to 24 occurs |
| Voice.Locale | brewbuddy-app/src/App.tsx:120-121 | each language gets a distinct locale tag, which maps back to that language |
| Voice.CollectFinal | brewbuddy-app/src/App.tsx:131-136 | the loop concatenates, in order, the texts of the final results from `resultIndex` on |
| Voice.FinalTextEmptyIff | brewbuddy-app/src/App.tsx:137-139 | the handler leaves the transcript alone exactly when every final result from `resultIndex` on has empty text |
| Voice.VoiceInput.constructor | brewbuddy-app/src/App.tsx:103-106 | not listening, empty transcript, no error, no recognizer, no calls made, and the first render reports no support |
| Voice.VoiceInput.SetupAsWritten | brewbuddy-app/src/App.tsx:109-142 | without browser support the error is set, which re-renders, and the stored recognizer is left as it was; with support a non-continuous recognizer with interim results and the language's locale is stored, and the rendered `isSupported` keeps its old value |
| Voice.VoiceInput.Setup | brewbuddy-app/src/App.tsx:109-142 | as SetupAsWritten, except that afterwards the rendered `isSupported` is true exactly when a recognizer is stored |
| Voice.MountAsWritten | brewbuddy-app/src/App.tsx:160-166 | on a browser with speech recognition, mounting stores a recognizer yet renders `isSupported` as false |
| Voice.Mount | brewbuddy-app/src/App.tsx:160-166 | with the intended setup, mounting renders `isSupported` true exactly when the browser supports speech recognition, and stores a recognizer exactly then |
| Voice.VoiceInput.Cleanup | brewbuddy-app/src/App.tsx:143 | the effect's cleanup aborts the recognizer and changes nothing else |
| Voice.VoiceInput.OnStart | brewbuddy-app/src/App.tsx:123 | listening starts; nothing else changes |
| Voice.VoiceInput.OnEnd | brewbuddy-app/src/App.tsx:124 | listening stops; nothing else changes |
| Voice.VoiceInput.OnError | brewbuddy-app/src/App.tsx:125-128 | the error becomes "Speech recognition error: " followed by the code, and listening stops |
| Voice.VoiceInput.OnResult | brewbuddy-app/src/App.tsx:130-140 | the final texts replace the transcript unless they are all empty, in which case it is kept |
| Voice.VoiceInput.StartListening | brewbuddy-app/src/App.tsx:146-152 | acts exactly when a recognizer exists and is not listening; it then clears the error and the transcript and starts the recognizer once |
| Voice.VoiceInput.StopListening | brewbuddy-app/src/App.tsx:154-158 | stops the recognizer exactly when one exists and is listening |
| StatusSim.StatusSimulator.constructor | brewbuddy-app/src/App.tsx:171-172 | the hook starts pending and not loading |
| StatusSim.StatusSimulator.Start | brewbuddy-app/src/App.tsx:174-181 | with no order id or the empty one (`!orderId`) nothing happens; with any other, loading starts and the flow restarts at its head, while the status itself stays as it was |
| StatusSim.StatusSimulator.UpdateStatus | brewbuddy-app/src/App.tsx:183-194 | while the flow is not exhausted a firing sets the next status, one rank further on, and lowers the loading flag after the last one; afterwards a firing changes nothing; the statuses set so far are always a prefix of the flow |
| StatusSim.StatusSimulator.Teardown | brewbuddy-app/src/App.tsx:198 | the cleanup lowers the loading flag and leaves the flow's position alone |
| StatusSim.FlowPrefixMovesForward | brewbuddy-app/src/App.tsx:180 | every prefix of the flow holds distinct statuses, the status at position i having rank i |
| StatusSim.EmittedMovesForward | brewbuddy-app/src/App.tsx:183-194 | for every valid simulator, the statuses set since the last start are at most three, distinct, each one rank past the previous one, and the current status is the last of them |
| StatusSim.TrackingTimeline | brewbuddy-app/src/App.tsx:174-199 | with an empty order id nothing is scheduled and loading stays off; with any other id, four firings set pending, preparing, ready, ready, and loading is on until the third firing and off afterwards |
| QrCode.ToInt32 | brewbuddy-app/src/App.tsx:223 | `\| 0` yields a signed 32-bit value and leaves 32-bit values alone |
| QrCode.ToInt32Offset | brewbuddy-app/src/App.tsx:223 | `\| 0` moves its argument by a whole multiple of 2^32, so with ToInt32 it is the unique signed 32-bit value congruent to the argument |
| QrCode.ToInt32Shift | brewbuddy-app/src/App.tsx:223 | `\| 0` depends only on its argument modulo 2^32 |
| QrCode.EncodeChar | brewbuddy-app/src/App.tsx:223 | a character becomes one code unit below U+10000, otherwise a high and a low surrogate that decode back to it |
| QrCode.Utf16 | brewbuddy-app/src/App.tsx:223 | `value.split('')` has at least one code unit per character |
| QrCode.Utf16OfBmp | brewbuddy-app/src/App.tsx:223 | a string of characters below U+10000 is exactly its own code units |
| QrCode.Step | brewbuddy-app/src/App.tsx:223 | one reduce step, as written, stays a signed 32-bit value |
| QrCode.StepIsTimes31 | brewbuddy-app/src/App.tsx:223 | the step `((a << 5) - a + c) \| 0` is `31 * a + c` wrapped to 32 bits |
| QrCode.Hash | brewbuddy-app/src/App.tsx:223 | the hash is a signed 32-bit value |
| QrCode.HashIsPolynomial | brewbuddy-app/src/App.tsx:223 | the wrapping fold equals the base-31 polynomial of the code units, wrapped once at the end |
| QrCode.Cells | brewbuddy-app/src/App.tsx:220-224 | the picture has 625 cells |
| QrCode.Grid | brewbuddy-app/src/App.tsx:220-224 | the picture for a value has 625 cells |
| QrCode.BlackIffMod3 | brewbuddy-app/src/App.tsx:224 | `Math.abs(hash + 7x + 11y) % 3 === 0` holds exactly when hash + x + 2y is a multiple of 3 |
| QrCode.CellAt | brewbuddy-app/src/App.tsx:220-224 | cell (x, y) is index 25y + x, and it is black exactly when hash + x + 2y is a multiple of 3 |
| QrCode.SameResidueSameCells | brewbuddy-app/src/App.tsx:220-224 | hashes that agree modulo 3 draw the same picture |
| QrCode.OtherResidueOtherCells | brewbuddy-app/src/App.tsx:220-224 | hashes that differ modulo 3 draw different pictures |
| QrCode.SameGridIffSameHashMod3 | brewbuddy-app/src/App.tsx:220-224 | two values get the same picture exactly when their hashes agree modulo 3, so only three pictures exist |
| Kiosk.App.constructor | brewbuddy-app/src/App.tsx:520-522 | the kiosk starts on the language screen, in English, with no order, and the reachability invariant holds |
| Kiosk.App.SelectLanguage | brewbuddy-app/src/App.tsx:524-527 | from the language screen: the language is set and the home screen follows; the invariant is kept |
| Kiosk.App.StartOrder | brewbuddy-app/src/App.tsx:529-531 | from the home screen: the order screen follows; the invariant is kept |
| Kiosk.App.CompleteOrder | brewbuddy-app/src/App.tsx:533-536 | from the order screen: the order is stored and the confirmation screen follows; the invariant is kept |
| Kiosk.App.SubmitOrder | brewbuddy-app/src/App.tsx:298-316 | from the order screen: a blank transcript changes nothing; any other transcript stores the built order, with the parsed items, and shows the confirmation; the invariant is kept |
| Kiosk.App.TrackOrder | brewbuddy-app/src/App.tsx:538-540 | from the confirmation screen: the tracking screen follows and the order is kept |
| Kiosk.App.OrderReady | brewbuddy-app/src/App.tsx:542-544 | from the tracking screen: the ready screen follows and the order is kept |
| Kiosk.App.NewOrder | brewbuddy-app/src/App.tsx:546-549 | from the ready screen: the order is cleared and the home screen follows; the invariant is kept |
| Kiosk.App.ShownOrder | brewbuddy-app/src/App.tsx:572-578 | on the confirmation and tracking screens an order is always held, and it is pending and in the selected language |
| Kiosk.Visit | brewbuddy-app/src/App.tsx:519-581 | one customer's visit passes language, home, order, confirmation, tracking, ready and back home, placing the built order; a blank transcript stays on the order screen and places nothing |

## Left out

- Rendering, styling, the SVG markup and the translation tables: they do not affect state.
- The `isProcessing` flag and the 2000 ms wait of the submit handler: submission is modelled as one atomic step, and its `try`/`catch` never sees an exception in this code.
- The order's `timestamp`: it comes from the clock and nothing reads it.
- The random id (`Math.random().toString(36)…`) and the random total: the id is an arbitrary parameter, and the total's random part is a parameter `roll` below 20.
- Timer delays (`setTimeout` with 1000 and 5000 ms): each firing is one method call. A timer left over from an earlier run of the status effect is not modelled, because the model keeps one update closure.
- The wait of the tracking screen's effect (448-452) before it calls `onOrderReady`: `Kiosk.App.OrderReady` is that call.
- The browser's speech recognizer: support is a parameter of `Setup`. Its events are method calls, and the calls made on it are recorded in `calls`. A result's alternatives beyond the first (`[0]`) are not modelled because the code never reads them.
- Kiosk.App.CompleteOrder: requires the order to be one the order page builds (pending, in the current language, total from 5 to 24, well-formed items). The handler itself accepts any order, but the order page is its only caller.
- Status updates of the held order: the order the controller stores keeps status pending, because the code keeps the tracking screen's status only inside the status hook.
- Re-renders caused by the voice handlers' state updates: the handlers keep the rendered `isSupported` as it was. They can only run after the microphone button was offered, and by then the intended setup has already rendered the stored recognizer.
- JavaScript numbers are modelled as unbounded integers in the hash. Every intermediate value stays far below 2^53, so double arithmetic is exact there.

## Findings

| source | as written | input that shows it | evidently intended | confidence | as-written member | corrected member |
|---|---|---|---|---|---|---|
| brewbuddy-app/src/App.tsx:166 | `isSupported` is read from the recognizer reference while rendering, but the setup effect (109-142) fills that reference after the first render and sets no state, so nothing renders again; the order page keeps showing its "not supported" message (324-332), which offers no control that could change state | a browser with speech recognition; mount the order page and let the setup effect run | support recorded in state by the effect, so the page renders again and offers the microphone once a recognizer exists | medium, not executed | Voice.MountAsWritten | Voice.Mount |
