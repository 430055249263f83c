# Nexa-Kabi, modelled and proved in Dafny

Nexa-Kabi sells tickets, checks them at the door and pays organizers. This project
models the parts of it whose correctness depends on more than one line of code, and
proves what they promise. `dafny verify dfyconfig.toml` checks everything.

| module | models |
|---|---|
| `Text` | trimming, decimal numerals and splitting, as JavaScript does them |
| `Base64Url`, `QrToken`, `CheckIn` | the signed ticket, byte for byte; its verdict; the door, scan after scan |
| `SlotStore`, `SlotMask`, `SlotGeometry` | the image slot's sidecar store, its replacement mask, and its pan and zoom |
| `Expr`, `ExprTree`, `ExprScan` | the template expression evaluator, the trees it is proved against, and what it makes of any text |
| `DeckKeys` | the keys of a deck's children |
| `PageCache`, `TicketCache`, `RefreshFlight` | the service worker's caches and the middleware's single-flight refresh |
| `Money`, `Fees`, `Ledger`, `LedgerRuns` | amounts and their display, commissions, the ledger and what its runs keep |
| `Phone`, `Csv`, `Slug` | printers, parsers and normalisers |
| `Payments` | the payment state machine under unordered notifications |

Code that changes state is a class, or a method with a loop, proved against a
specification function; a protocol is a step function over events, and its theorems
hold for every sequence of events.

## Assumptions

- Only the reading of a typed amount meets fractions: its rounding is a parameter, exact
  or that of doubles (`Money.IsHost`). Elsewhere arithmetic is exact, and
  `Math.round(a / b)` is the nearest integer, the upper one on a tie. For the percentages
  doubles give the same while the product under the division is a safe integer, that is
  for amounts below 900 719 925 474 at up to 10 000 basis points.
- Image geometry is over the reals; instants are whole milliseconds.
- A JavaScript string is a sequence of characters; characters outside the Basic
  Multilingual Plane count as one.
- Ed25519 is a predicate `verify` and a function `sign` with `verify(m, sign(m))`; the
  round trip needs nothing else of it.
- JavaScript's own operators (loose and strict equality, truth, number reading, member
  access) are parameters of the evaluator's model.
- The image slot gets one load or error event for each address it is given, and the
  host applies posted files in order.
- The early release of blocked money (packages/contracts/src/finance.ts:99-102) is
  described there but not coded: its `HOLD` entry is given the event and the date of the
  money it unblocks, and its amount does not exceed that money.
- A payout request, a move of a payout, a freeze and its release are checked on what was
  read before their transaction, and the reading is part of the operation. The ledger's
  run theorems hold for runs whose accepted operations the books can bear when they are
  written (`Covered`). `StepKeepsExactly` proves that this is exactly what keeps the
  ledger in order and its payouts on their documented transitions, `FreshIsCovered` that a
  current reading ensures it. Fees are not negative, payout policies are valid, and time
  goes forward.

## Where the code and its comments part

- `decideCheckIn` returns `VALID_OFF_MANIFEST` before it looks at the local scans, so a
  ticket outside the carnet passes as often as it is shown (`OffCarnetAlwaysAdmitted`).
- The local scans are the queue of unsent ones, which empties when the server confirms:
  a carnet that still lists the ticket as fresh then lets it in again
  (`ConfirmedTicketPassesAgain`).
- The mask is held by the claim of an encode begun on a filled slot, until `src` changes
  or the current encode ends. Without one it comes off while an encode runs
  (`MaskComesOffExactly`, `MaskOffDuringFirstEncode`); a claim also holds it during a
  later encode (`ClaimOutlivesItsEncode`).
- A save without the host's writer is dropped (`LateWriterLosesEdit`), and a writer that
  throws leaves `save` blocked for good (`JammedForEver`).
- A trim deletes a page that was stored anew after it listed the keys
  (`FreshPageCanBeTrimmed`, `KeepsLatestExactly`).
- Revalidations may overtake one another, so that an older ticket replaces a newer one
  (`OlderAnswerOverwrites`); `NewestIsKeptExactly` says when that does not happen.
- A typed decimal is scaled in doubles: a tie can be missed (`TiesAreMissed`), and from
  2^51 on an amount with decimals can lose a unit (`LargeAmountLosesAUnit`).
- Hours beyond the range of dates make an expiry that never comes (`ExpiredExactly`).
- The services check a payout's status, a balance and a frozen amount before the
  transaction that writes, so that two of them at once can pass on one reading
  (`StaleStatusReversesTwice`, `StaleBalanceOverdraws`, `StaleFreezeThawsTwice`). A payout
  that was paid is said never to be reopened; one of two conclusions on one reading can
  fail and return it all the same (`StaleStatusReopensPaid`, `MoveFollowsExactly`).
- A sale whose fees exceed its amount makes the available balance smaller, on every tier
  (`SaleAddsExactly`).
- A quoted literal that contains an operator is split at it (`QuotedOperatorIsSplit`).
- Old Beninese numbers that begin with `00` or `00229` are taken for dialling codes
  (`LegacySpelling`).
- `a == b == c` groups to the right.

## Model

| member | source | states |
|---|---|---|
| Base64Url.EncodeDigits | packages/utils/src/qr.ts:80-85 | `btoa` followed by the three replacements yields exactly the url-safe digits of the 6-bit groups of the bytes |
| Base64Url.EncodeShape | packages/utils/src/qr.ts:80-85 | the encoding of n bytes has ceil(4n/3) characters, all of them url-safe |
| Base64Url.DecodeEncode | packages/utils/src/qr.ts:80-101 | decoding undoes encoding, for byte strings of any length |
| Base64Url.DecodeRefuses | packages/utils/src/qr.ts:93-101 | of the texts over the url-safe alphabet, decoding refuses exactly those whose length is 1 modulo 4 |
| Base64Url.EncodedBits | packages/utils/src/qr.ts:80-85 | character i of an encoding is the url-safe digit of bits 6i to 6i + 5 of the bytes |
| Base64Url.ForeignIsRefused | packages/utils/src/qr.ts:93-101 | a text with any character beyond the two alphabets, `=` and blanks is refused |
| Base64Url.BlankIsSkipped | packages/utils/src/qr.ts:93-101 | `atob` skips a blank wherever it stands |
| Base64Url.ToBase64Url | packages/utils/src/qr.ts:80-85 | the loop over bytes computes the encoding |
| Base64Url.FromBase64Url | packages/utils/src/qr.ts:93-101 | the loop into a fresh buffer fills it with the decoded bytes, or fails exactly when decoding does |
| Base64Url.PaddingLoop | apps/web/middleware.ts:172-176 | padding in a loop decodes every text as padding to a computed length does |
| QrToken.PackQrPayload | packages/utils/src/qr.ts:121-157 | filling the 27-byte buffer in place gives the specified payload, or the first error in the source's order |
| QrToken.SetUint32 | packages/utils/src/qr.ts:150-154 | four big-endian bytes at the given place, and nothing else changed |
| QrToken.UnpackQrPayload | packages/utils/src/qr.ts:159-190 | reading the code byte by byte gives the specified payload, with an invalid date beyond the range of dates, or the error |
| QrToken.PayloadLayout | packages/utils/src/qr.ts:121-157 | byte by byte what a packed payload holds, and exactly when packing fails with which error |
| QrToken.UnpackPacked | packages/utils/src/qr.ts:121-190 | unpacking a packed payload gives the canonical id, the code, and the date of the stored hours: rounded up, modulo 2^32, and 0 for an invalid date |
| QrToken.PackUnpacked | packages/utils/src/qr.ts:112-190 | what was unpacked packs back to the same bytes exactly when its code is ASCII and its hours are within the range of dates; without an ASCII code it is refused |
| QrToken.ParseBuilt | packages/utils/src/qr.ts:196-227 | parsing a built token returns its payload and signature bytes, or the payload's own error |
| QrToken.TokenLength | packages/utils/src/qr.ts:196-198 | every token is 127 characters long |
| QrToken.TicketRoundTrip | packages/utils/src/qr.ts:108-227 | for any date a ticket parses to the same id, code and signature; the expiry comes back rounded up to the hour exactly when that hour is not before the epoch |
| QrToken.ParsedForm | packages/utils/src/qr.ts:212-227 | only tokens `NK1.a.b` are accepted, where a and b decode to the parsed bytes, of the right sizes |
| QrToken.ParsedExactly | packages/utils/src/qr.ts:212-227 | what is a ticket, exactly: three parts, prefix, base64url, 64 and 27 bytes, version 1; each refusal has its own cause |
| QrToken.ValidMeansSigned | packages/utils/src/qr.ts:266-318 | no verdict beyond a bad signature arises unless the signature over the very payload bytes verified; valid also means not past its date and for the expected event |
| QrToken.VerdictExactly | packages/utils/src/qr.ts:266-318 | each of the five verdicts exactly: malformed, then the signature, then the event, then the date |
| QrToken.ExpiredExactly | packages/utils/src/qr.ts:112-114 | a signed token for this event is expired exactly when its hours are a date and that date has passed: hours beyond the range of dates never expire |
| QrToken.IssuedTicketVerdict | packages/utils/src/qr.ts:108-119 | an honest ticket whose expiry is a date from the epoch on is valid up to 24 h after the event, expired from 25 h on, and always for the wrong event under another code |
| CheckIn.AdmitsExactly | packages/contracts/src/checkin.ts:184-229 | entry is granted exactly for an authentic ticket that is off the carnet, or fresh in it and not scanned locally |
| CheckIn.VerdictsExactly | packages/contracts/src/checkin.ts:184-224 | each of the eight verdicts exactly, from what the token proves, the entry in the carnet and the local scan |
| CheckIn.ValidPerConfirmation | packages/contracts/src/checkin.ts:209-223 | over any run of scans, confirmations and carnets, a ticket gets VALID at most once more than the server confirmed it |
| CheckIn.ValidAtMostOnce | packages/contracts/src/checkin.ts:214-223 | while its scan waits in the queue, a ticket gets VALID at most once |
| CheckIn.ValidExactly | packages/contracts/src/checkin.ts:184-224 | VALID exactly when the token verifies, the carnet lists it as fresh, and no scan of it waits |
| CheckIn.DeviceIsHistory | apps/web/lib/scan/db.ts:96-160 | in every run the device knows the carnet loaded last, and a scan waits exactly when one admitted the ticket and none was confirmed since |
| CheckIn.VerdictByHistory | packages/contracts/src/checkin.ts:184-224 | in every run the verdict of a scan is the one for its token, the ticket's entry in the carnet loaded last, and whether a scan of it still waits |
| CheckIn.AdmissionIsSigned | apps/web/lib/scan/verify.ts:119-165 | a scan that admits carried a verified signature over its payload, not past its date and for this very event code |
| CheckIn.OffCarnetAlwaysAdmitted | packages/contracts/src/checkin.ts:209-210 | witness: an authentic ticket outside the carnet is admitted again and again |
| CheckIn.ConfirmedTicketPassesAgain | apps/web/lib/scan/db.ts:151 | witness: after its scan is confirmed, a ticket an old carnet lists as fresh gets VALID again |
| CheckIn.IssuedTicketPassesOnce | packages/contracts/src/checkin.ts:184-224 | from issue to the door: an honest ticket listed as fresh passes, and is reported used at the next scan |
| SlotStore.WritesAreSerial | design-reference/image-slot.js:199-244 | in every interleaving no file is posted before the read has ended, and at most one `save` write is in flight |
| SlotStore.FlagIsExact | design-reference/image-slot.js:225-240 | with a writer that never throws, the saving flag is set exactly while a write is in flight |
| SlotStore.JammedForEver | design-reference/image-slot.js:225-240 | in every run the flag is set with no write in flight exactly when some save found it clear and a writer that throws; after that no save posts anything |
| SlotStore.QuiescentFile | design-reference/image-slot.js:225-240 | at quiescence an edit is unposted exactly when a save found no working writer and none has posted since; otherwise the last posted file equals the slots |
| SlotStore.QuietStoreIsWritten | design-reference/image-slot.js:217-240 | with the writer there throughout, a quiet store has posted every edit |
| SlotStore.LateWriterLosesEdit | design-reference/image-slot.js:230-231 | witness: an edit saved before the writer exists is not written when it arrives |
| SlotStore.SlotsAreAsIntended | design-reference/image-slot.js:170-199 | in every interleaving each id holds its last edit or else its value on disk; a framing-only edit that ran ahead keeps the image on disk |
| SlotStore.HydrationKeepsImage | design-reference/image-slot.js:179-189 | in every run a framing edited before the read keeps its scale and offsets, and its image when it has one; else it takes the image on disk, in either stored shape, and stays as it is when there is none |
| SlotStore.UntouchedShowsDisk | design-reference/image-slot.js:249-254 | in every run a slot nobody edited shows what the file held, an old bare address as an image at its own scale |
| SlotStore.FlushPosts | design-reference/image-slot.js:217-224 | in every run an unload flush of a hydrated store with a working writer posts the current slots, and any other does nothing |
| SlotStore.FileIsAsIntended | design-reference/image-slot.js:170-270 | so does the last posted file of a quiet store |
| SlotStore.SidecarStore.SaveNow | design-reference/image-slot.js:225-240 | `save`: posts, or marks dirty while the flag is set, or does nothing without a writer, or is left with the flag set by one that throws |
| SlotStore.SidecarStore.OnWriteDone | design-reference/image-slot.js:233-239 | a settled write clears the flag and saves again if dirty |
| SlotStore.SidecarStore.FlushNow | design-reference/image-slot.js:217-224 | the unload flush posts the slots once hydrated |
| SlotStore.SidecarStore.Put | design-reference/image-slot.js:255-270 | `setSlot`: edit or clear, tombstone before hydration, save now or after the read |
| SlotStore.SidecarStore.MergeOver | design-reference/image-slot.js:179-189 | the loop over in-memory ids computes the merge, images inherited |
| SlotStore.SidecarStore.OnRead | design-reference/image-slot.js:170-194 | hydration replaces the slots by the merge less the tombstones |
| SlotStore.SidecarStore.CloneSlot | design-reference/image-slot.js:486-526 | the first usable candidate, if any, ends up holding what the source slot holds; no other slot changes; none exactly when all 98 candidates are refused |
| SlotStore.StemExactly | design-reference/image-slot.js:486-526 | candidates are numbered after the id without the number it ends with, and only that number |
| SlotStore.UsableExactly | design-reference/image-slot.js:486-526 | a candidate is usable exactly when it is free, or holds the same framing of the same image already |
| SlotMask.MaskIsNeverStranded | design-reference/image-slot.js:969-1065 | in every run a mask that is on has a current encode or a load still to come, and an image that is no longer the assigned one is covered |
| SlotMask.MaskComesOffOnlyWhenSettled | design-reference/image-slot.js:1061-1065 | the mask comes off only when the slot empties, or no load is due and no encode of a replacement runs |
| SlotMask.MaskComesOffExactly | design-reference/image-slot.js:1046-1065 | on a slot that renders, a mask that was on is off after a step exactly when the slot is empty, or no load is due and no claim stands |
| SlotMask.ShowsExactly | design-reference/image-slot.js:1196-1270 | in every run a slot that renders shows the user's image, else its `src`; without an image of the user's it is empty exactly when `src` is, or is an uncredited Unsplash address |
| SlotMask.SwapGenHistory | design-reference/image-slot.js:934-1013 | a claim stands exactly when an encode was begun on a filled slot and since then neither `src` changed nor the current encode ended |
| SlotMask.LoadReleases | design-reference/image-slot.js:649-657 | after the due load or error a mask that was on stays exactly while an encode claims it, and that encode runs |
| SlotMask.EncodeReleases | design-reference/image-slot.js:994-1019 | when the current encode ends the mask is off or a load is due, and a success leaves the new image assigned; the end of an earlier one changes nothing but its own record |
| SlotMask.ReplacementIsCovered | design-reference/image-slot.js:1227-1244 | replacing a shown image covers it in the same step |
| SlotMask.FillIsCoveredExactly | design-reference/image-slot.js:1227-1266 | in every run filling an empty slot covers it exactly when the last rendering took its image away for want of a credit |
| SlotMask.MaskOffDuringFirstEncode | design-reference/image-slot.js:987-990 | witness: with no claim, the mask comes off while an encode begun on an empty slot runs |
| SlotMask.ClaimOutlivesItsEncode | design-reference/image-slot.js:987-990 | witness: the claim of an earlier encode holds the mask during one begun on the emptied slot |
| SlotMask.ImageSlot.Release | design-reference/image-slot.js:1061-1065 | `_releaseMask` |
| SlotMask.ImageSlot.RenderContent | design-reference/image-slot.js:1224-1274 | the content part of `_render` computes the specified repaint |
| SlotMask.ImageSlot.ConnectedCallback | design-reference/image-slot.js:761-787 | connecting renders the slot |
| SlotMask.ImageSlot.SrcChanged | design-reference/image-slot.js:934-940 | a new `src` supersedes running encodes, then renders |
| SlotMask.ImageSlot.StartIngest | design-reference/image-slot.js:969-990 | the start of `_ingest`: a new generation, and the mask over a filled slot |
| SlotMask.ImageSlot.FinishIngest | design-reference/image-slot.js:993-1009 | a successful encode, ignored when stale |
| SlotMask.ImageSlot.FailIngest | design-reference/image-slot.js:1010-1019 | a failed encode, ignored when stale |
| SlotMask.ImageSlot.OnLoad | design-reference/image-slot.js:649-653 | the load handler |
| SlotMask.ImageSlot.OnError | design-reference/image-slot.js:654-657 | the error handler |
| SlotGeometry.GapFreeExactly | design-reference/image-slot.js:1086-1094 | an axis shows no gap exactly when the offset is within half the overflow |
| SlotGeometry.CoverHasNoGap | design-reference/image-slot.js:1075-1094 | after clamping a cover image leaves no gap on either axis |
| SlotGeometry.ContainIsCentredOrGapFree | design-reference/image-slot.js:1075-1094 | after clamping a contain image is, per axis, gap-free or centred |
| SlotGeometry.ClampIdempotent | design-reference/image-slot.js:1086-1094 | clamping twice changes nothing more |
| SlotGeometry.ClampMovesLeast | design-reference/image-slot.js:1086-1094 | no offset that the frame allows is nearer to the given one than the clamped |
| SlotGeometry.ClampedViewIsNearest | design-reference/image-slot.js:1086-1094 | the same of the whole view, on either axis |
| SlotGeometry.FitsExactly | design-reference/image-slot.js:1075-1084 | at scale 1 a contain image lies within the frame, a cover image fills it, and either has the frame's extent on an axis |
| SlotGeometry.PanFollowsPointer | design-reference/image-slot.js:713-718 | before clamping, a pan moves both edges on both axes as far as the pointer |
| SlotGeometry.ZoomScalesExactly | design-reference/image-slot.js:744-755 | a wheel step multiplies the scale by its factor, between 1 and 5 |
| SlotGeometry.ZoomFixesCursor | design-reference/image-slot.js:744-753 | wheel zoom keeps the image point under the cursor |
| SlotGeometry.ResizeFixesOppositeCorner | design-reference/image-slot.js:681-706 | corner resize keeps the opposite corner, wherever the pointer is |
| SlotGeometry.ResizeFollowsDiagonal | design-reference/image-slot.js:681-706 | the scale is that of the pointer's projection on the diagonal, within the bounds, wherever the pointer is: on the dragged corner the one the drag started from |
| SlotGeometry.ReframedView.Clamp | design-reference/image-slot.js:1086-1094 | `_clampView` in place leaves the view framed |
| SlotGeometry.ReframedView.Pan | design-reference/image-slot.js:713-718 | a pan step, clamped, leaves the view framed |
| SlotGeometry.ReframedView.Wheel | design-reference/image-slot.js:744-755 | a wheel step, clamped, leaves the view framed |
| SlotGeometry.ReframedView.Resize | design-reference/image-slot.js:700-708 | a resize step, clamped, leaves the view framed |
| Expr.ParensWrapWhole | design-reference/support.js:238-248 | the scanning loop decides whether the first parenthesis closes at the end |
| Expr.FindTopLevelEquality | design-reference/support.js:249-263 | the scanning loop finds the specified operator |
| Expr.FindAccess | design-reference/support.js:269-292 | one turn of the path loop: a name, a bracketed key with its matching bracket, or an error |
| Expr.Evaluate | design-reference/support.js:202-237 | the recursive evaluator over the loops computes `Resolve`, and ends on every string |
| Expr.EvaluatePath | design-reference/support.js:264-295 | the path loop computes `ResolvePath` |
| ExprTree.WrapDecides | design-reference/support.js:238-248 | for balanced text, `( s )` is found to wrap exactly when nothing follows |
| ExprTree.FindOperator | design-reference/support.js:249-263 | in a printed equality the scan finds its outermost operator, at its place |
| ExprTree.FindNothing | design-reference/support.js:249-263 | in any other printed tree the scan finds none |
| ExprTree.ResolvePrinted | design-reference/support.js:202-295 | for every tree, evaluating its printed form, with any blanks, gives the tree's meaning |
| ExprTree.ComparisonPrinted | design-reference/support.js:202-225 | a printed comparison with each of the four operators is the JavaScript comparison of the values of its two sides |
| ExprTree.NegationPrinted | design-reference/support.js:226 | `!` before any printed tree negates its truth |
| ExprTree.NamePrinted | design-reference/support.js:264-268 | a name is looked up in the values, and undefined when these are nullish |
| ExprTree.DotPrinted | design-reference/support.js:270-274 | a name or digits after a point are looked up in what is before it, and undefined when that is nullish |
| ExprTree.KeyPrinted | design-reference/support.js:275-289 | what is in brackets is evaluated, and looked up likewise |
| ExprTree.WordsPrinted | design-reference/support.js:227-230 | the four words |
| ExprTree.NumeralsPrinted | design-reference/support.js:201-231 | numerals of any length and sign, with and without decimals |
| ExprTree.TextsPrinted | design-reference/support.js:232-236 | texts in either quote |
| ExprTree.NamesExactly | design-reference/support.js:200 | which texts are names |
| ExprTree.QuotedExactly | design-reference/support.js:229-235 | for any text, a quoted literal reads as that text exactly when the equality scan finds nothing in it |
| ExprTree.QuotedOperatorIsSplit | design-reference/support.js:208-222 | witness: `'a==b'` is read as a comparison |
| ExprScan.EqualityExactly | design-reference/support.js:249-263 | in any text, well-formed or not, the scan finds the first equality sign outside all brackets that begins its run of signs and has something before it |
| ExprScan.SplitExactly | design-reference/support.js:208-225 | any text not in parentheses is split at that sign, and its sides compared strictly exactly when the sign has three characters |
| ExprScan.UnwrapExactly | design-reference/support.js:205-207 | the parentheses around any text are dropped unless some parenthesis closes all before the end |
| ExprScan.KeyExactly | design-reference/support.js:275-289 | in any text the key of an access ends at the first bracket that closes it; without one the access is malformed |
| ExprScan.NumbersExactly | design-reference/support.js:201 | which texts are numerals |
| ExprScan.BlankIsUndefined | design-reference/support.js:203-204 | a blank expression is undefined |
| ExprScan.StrayIsUndefined | design-reference/support.js:264-266 | so is any text that begins with no name and is no numeral, quotation, negation or equality |
| ExprScan.BrokenPathIsUndefined | design-reference/support.js:269-294 | so is a name followed by anything but an access: a call, a sum, an unclosed bracket |
| ExprScan.QuotationExactly | design-reference/support.js:232-236 | a quoted literal reads as its own text exactly when it holds no equality sign that counts |
| DeckKeys.NextIds | design-reference/support.js:503-517 | the backward loop gives each child the identifier on the next element, when that is a slide |
| DeckKeys.WalkDeckChildren | design-reference/support.js:494-548 | keys are given exactly when texts are blank, nothing is control flow, and slides have new well-formed identifiers; each is the specified key |
| DeckKeys.KeysAreDistinct | design-reference/support.js:518-546 | the keys given to a deck's children are pairwise distinct as text |
| DeckKeys.KeysExactly | design-reference/support.js:516-545 | the text of every key: a slide's identifier, a position, or for a blank that of the slide it leads to, numbered from the second on |
| DeckKeys.AcceptableExactly | design-reference/support.js:518-542 | exactly what keeps a deck's children from having keys |
| DeckKeys.NextIdExactly | design-reference/support.js:503-515 | a blank leads to the next element, and has its identifier exactly when that is a slide |
| DeckKeys.BaseExactly | design-reference/support.js:519-520 | blanks share the identifier of the slide they lead to, and all others that of the deck |
| PageCache.BoundedByPendingTrims | apps/web/public/sw.js:122-147 | in every interleaving of puts and trims the cache exceeds its bound by at most the number of trims pending, so it is within it when none is |
| PageCache.PutThenTrim | apps/web/public/sw.js:126-147 | uninterrupted, a put and its trim leave exactly the latest pages, in order |
| PageCache.KeepsLatestExactly | apps/web/public/sw.js:122-147 | in every interleaving, whenever no trim is pending, the cache holds exactly the latest five pages, in order, unless a trim deleted one that was stored anew after the trim listed it |
| PageCache.LatestLostOnlyIfRestored | apps/web/public/sw.js:140-147 | a delete takes one of the latest pages only if it was stored after the trim listed it |
| PageCache.FairRunsKeepLatest | apps/web/public/sw.js:122-147 | where no page is stored while a pending trim lists it, the latest pages are kept |
| PageCache.FreshPageCanBeTrimmed | apps/web/public/sw.js:140-147 | witness: interleaved, a trim deletes a page stored anew after its snapshot |
| PageCache.Cache.TrimCache | apps/web/public/sw.js:140-147 | the delete loop keeps exactly the last `max` keys, with their responses |
| PageCache.PagesCache.NetworkFirst | apps/web/public/sw.js:122-136 | the answer does not wait for the cache: network, else any cache, else the offline page; exactly a good answer starts a put, of that answer for that page |
| PageCache.PagesCache.OnStored | apps/web/public/sw.js:128-129 | a put that goes through stores its page and makes its trim pending; only good answers are ever stored |
| PageCache.PagesCache.OnPutFailed | apps/web/public/sw.js:128-129 | a put that fails stores nothing and starts no trim |
| PageCache.PagesCache.OnKeys | apps/web/public/sw.js:141-144 | a trim lists all keys but the last five |
| PageCache.PagesCache.DeleteNextKey | apps/web/public/sw.js:144-146 | one turn of the delete loop |
| PageCache.PagesCache.FinishTrim | apps/web/public/sw.js:144-147 | a trim that has deleted all it listed ends, and touches nothing |
| TicketCache.StoredIsLastPut | apps/web/public/sw.js:101-110 | in every run of overlapping visits, what is stored under a key is the good answer put last for it, or what was there at first; a failure or a bad answer never replaces an entry |
| TicketCache.PutEndsOnce | apps/web/public/sw.js:101-112 | in every run the put of a visit ends once: one that was lost never goes through later |
| TicketCache.EntryStaysOrImproves | apps/web/public/sw.js:105-110 | an entry is never lost: it is the same, or a good answer for its key has been put since |
| TicketCache.VisitorsAreServed | apps/web/public/sw.js:101-119 | in every run a visitor is served from the cache at once exactly when the key was stored at first or an answer for it had been put; otherwise with the end of the visit's own fetch, the offline page exactly when it failed |
| TicketCache.OpenedTicketsOpenOffline | apps/web/public/sw.js:90-119 | a ticket of which an answer was put opens without the network ever after, with the good answer put last |
| TicketCache.NewestIsKeptExactly | apps/web/public/sw.js:105-115 | a key holds at every moment the answer of the latest visit that was put, exactly when its puts go through in the order of the visits |
| TicketCache.OlderAnswerOverwrites | apps/web/public/sw.js:105-115 | witness: the answer of an earlier visit replaces that of a later one |
| TicketCache.FirstCache.CacheFirst | apps/web/public/sw.js:101-117 | a visit is answered from the cache or waits, and its fetch starts either way |
| TicketCache.FirstCache.OnNetwork | apps/web/public/sw.js:105-119 | the end of a fetch: a good answer starts a put, and a visitor who still waits is answered |
| TicketCache.FirstCache.OnStored | apps/web/public/sw.js:107 | a put that goes through stores the answer of its visit |
| RefreshFlight.SingleFlight | apps/web/middleware.ts:55-134 | in every interleaving the map holds a token exactly while a call for it has not settled, and calls for one token never overlap |
| RefreshFlight.JoinersGetTheOutcome | apps/web/middleware.ts:87-102 | a request gets the outcome of a call for its token that was in flight when it came; cookies are cleared exactly on a refusal |
| RefreshFlight.CookiesFollowAnswer | apps/web/middleware.ts:75-155 | in every run exactly the same-origin requests with a token and under two minutes left refresh, in one call answered once: cookies are cleared exactly when the answer is 401 or 403, set exactly to the session another 2xx carries, and kept otherwise |
| RefreshFlight.JoinersAgree | apps/web/middleware.ts:125-134 | requests that joined one call leave with the same cookies |
| RefreshFlight.BurstSharesOneCall | apps/web/middleware.ts:125-134 | of two requests for one token the later shares the call of the earlier exactly when it arrives before that call settles |
| RefreshFlight.NobodyIsStranded | apps/web/middleware.ts:125-155 | once every call has settled, every waiting request can be answered |
| RefreshFlight.LateArrivalResendsToken | apps/web/middleware.ts:92-98 | witness: a request that arrives later with the old token sends it again, and is signed out if it is refused |
| RefreshFlight.Middleware.RefreshOnce | apps/web/middleware.ts:125-134 | join the call in flight, or start one and record it |
| RefreshFlight.Middleware.OnRequest | apps/web/middleware.ts:57-87 | only same-origin requests with a token and an access about to expire refresh |
| RefreshFlight.Middleware.OnUpstream | apps/web/middleware.ts:136-155 | an answer becomes the outcome of its call |
| RefreshFlight.Middleware.OnSettled | apps/web/middleware.ts:129-131 | the handler deletes by token, and what it deletes is its own entry |
| RefreshFlight.Middleware.OnResponse | apps/web/middleware.ts:88-102 | cookies are set, cleared or kept by the outcome |
| Money.GroupsOfThree | packages/utils/src/money.ts:93 | the pattern separates the first one to three digits, then every three |
| Money.PrintedExactly | packages/utils/src/money.ts:83-108 | what is displayed, currency by currency: sign, grouped digits, decimals, symbol |
| Money.ParseUndoesFormat | packages/utils/src/money.ts:83-134 | parsing undoes printing for every currency, with and without the symbol: in exact arithmetic for every safe amount, in doubles for those of a currency without decimals or below 2^51; other amounts are not printed |
| Money.FormatIsInjective | packages/utils/src/money.ts:83-108 | two amounts never print alike |
| Money.ParseRoundsToNearest | packages/utils/src/money.ts:114-134 | a typed decimal is read as the nearest amount, and refused exactly when that is not safe: in doubles whenever it is farther from a tie than two roundings reach, in exact arithmetic always, the upper amount on a tie |
| Money.SpellingsAreRead | packages/utils/src/money.ts:118-123 | however it is typed a numeral is read as itself: blanks anywhere, any currency's symbol or code in either case on either side, four dashes, comma or point |
| Money.NumeralExactly | packages/utils/src/money.ts:125-129 | which texts are numerals, and what they denote |
| Money.ParsedExactly | packages/utils/src/money.ts:114-134 | an amount is read exactly from what is a numeral once cleaned, and makes a safe amount |
| Money.TiesAreMissed | packages/utils/src/money.ts:132 | witness: in doubles 1,005 is read as 100, in exact arithmetic as 101 |
| Money.LargeAmountLosesAUnit | packages/utils/src/money.ts:132 | witness: in doubles an amount above 2^52 with decimals is read back one unit lower |
| Money.RoundDivNearest | packages/utils/src/money.ts:142-148 | rounding gives the one integer within half a unit, the upper one on a tie |
| Fees.Identities | packages/contracts/src/fees.ts:160-212 | the four documented identities of a breakdown |
| Fees.CommissionExactly | packages/contracts/src/fees.ts:168-212 | for every order and valid policy: the commission is the rounded percentage plus the fixed part of what is billable, its floor when below, its cap when above, 0 with nothing billable; the discount is the smaller of that asked and the subtotal; the buyer's share is rounded to the nearest |
| Fees.AddLine | packages/contracts/src/fees.ts:168-186 | what a line adds to the subtotal, the tickets and the paid tickets |
| Fees.SharesAreBounded | packages/contracts/src/fees.ts:168-212 | both shares stay between nothing and the commission, which respects its floor and cap and is nil on free orders unless the policy says so |
| Fees.DiscountKeepsCommission | packages/contracts/src/fees.ts:184-195 | a discount changes neither the commission nor its split |
| Fees.PayoutNetIsMonotone | packages/contracts/src/fees.ts:215-228 | a payout's net is between zero and the amount, and never decreases with it |
| Fees.PayoutFeeExactly | packages/contracts/src/fees.ts:215-232 | the fee of a payout is the rounded percentage up to its cap, and the net what is left |
| Fees.ReceivableExactly | packages/contracts/src/fees.ts:234-248 | a request is receivable exactly from the minimum to the balance, and otherwise which refusal it gets |
| Fees.SummedCommissions | packages/contracts/src/fees.ts:187-195 | over n orders, rounding each differs from rounding once by at most (n + 1) / 2 |
| Ledger.TierExactly | packages/contracts/src/finance.ts:191-244 | the tier is the highest one whose conditions are met |
| Ledger.PlanSplitsNet | packages/contracts/src/finance.ts:261-284 | a plan splits the net exactly, rounding toward the held part, with a date exactly when something is held above tier 0 |
| Ledger.ImmediateReleasesAreCautious | packages/contracts/src/finance.ts:261-284 | summed immediate releases never exceed the immediate release of the sum |
| Ledger.Balances | apps/api/src/scripts/check-freeze.ts:28-46 | one pass computes the total, available, pending and frozen amounts |
| Ledger.UndatedNet | apps/api/src/modules/finance/ledger.service.ts:242-251 | the grouped sum of what an event has blocked without a date |
| Ledger.LedgerService.Commit | apps/api/src/modules/finance/ledger.service.ts:66-97 | entries of a transaction are all written, or none when one has an invalid amount |
| Ledger.LedgerService.RecordSale | apps/api/src/modules/finance/ledger.service.ts:116-210 | a sale writes its gross, fees and split as specified, or nothing |
| Ledger.LedgerService.ReleaseUnverifiedHolds | apps/api/src/modules/finance/ledger.service.ts:238-315 | all nets are read first, then the loop over events releases each as specified |
| Ledger.LedgerService.RequestPayout | apps/api/src/modules/finance/payouts.service.ts:97-188 | on the balance that was read, a payout is debited and recorded, or refused and nothing written |
| Ledger.LedgerService.Transition | apps/api/src/modules/finance/payouts.service.ts:525-582 | on the status that was read, a payout moves only as allowed, and a failure or cancellation returns its gross amount |
| Ledger.LedgerService.FreezeFunds | apps/api/src/modules/admin/moderation.service.ts:277-324 | a freeze moves at most the total that was read into escrow |
| Ledger.LedgerService.UnfreezeFunds | apps/api/src/modules/admin/moderation.service.ts:340-376 | a release moves at most the frozen amount that was read back |
| LedgerRuns.StepKeepsExactly | apps/api/src/modules/finance/payouts.service.ts:111-188 | an accepted operation keeps the ledger in order and every payout on its documented transitions exactly when the books it is written to can bear it, whatever was read before |
| LedgerRuns.FreshIsCovered | apps/api/src/modules/finance/payouts.service.ts:111-188 | what is accepted on a current reading they can bear |
| LedgerRuns.BalanceIsBacked | apps/api/src/modules/finance/ledger.service.ts:326-350 | in every such run, now and later: total = available + pending, available is at least minus what is frozen, pending covers what is frozen, and time alone never lowers the available balance |
| LedgerRuns.MoneyIsConserved | packages/contracts/src/finance.ts:82-103 | in every such run the total is the sum of the nets of the recorded sales less the gross amounts of the payouts not returned |
| LedgerRuns.ReversedAtMostOnce | packages/contracts/src/finance.ts:299-318 | in every such run a payout is reversed exactly once when it fails or is cancelled, and never otherwise |
| LedgerRuns.ConcludedIsFinal | packages/contracts/src/finance.ts:299-318 | in every such run entries are only added, a payout keeps its amounts and goes down its documented transitions, and a concluded one stays the same record for ever: one that is paid is never returned |
| LedgerRuns.MoveFollowsExactly | apps/api/src/modules/finance/payouts.service.ts:525-571 | an accepted move follows the documented transitions exactly when it is allowed from the status of the row or writes the same: on a concluded payout exactly when it leaves the row as it is |
| LedgerRuns.MoveReversesOnceExactly | apps/api/src/modules/finance/payouts.service.ts:525-571 | an accepted move keeps one reversal per returned payout exactly when the payout was not returned already |
| LedgerRuns.SaleAddsExactly | apps/api/src/modules/finance/ledger.service.ts:137-205 | for every tier a sale never lowers the available balance exactly when its net is not negative; a negative net is taken at once |
| LedgerRuns.SaleIsDue | apps/api/src/modules/finance/ledger.service.ts:137-205 | what a sale makes available at any instant, exactly: nothing without verification; its net from 48 h after the event on; before that 60 % of it, rounded down, from three completed events on, else nothing |
| LedgerRuns.StepIsDue | apps/api/src/modules/finance/ledger.service.ts:326-350 | what each operation adds to the balance available at any instant, exactly |
| LedgerRuns.AvailableIsDue | apps/api/src/modules/finance/ledger.service.ts:326-350 | in every run the balance available at any instant is the sum of these |
| LedgerRuns.EntriesAreSigned | packages/contracts/src/finance.ts:41-89 | whatever is attempted, on whatever reading, every entry written has the sign of its kind |
| LedgerRuns.RequestAcceptedExactly | apps/api/src/modules/finance/payouts.service.ts:97-188 | a payout request is accepted exactly when it is allowed, from the minimum to the balance that was read, and more than its fee |
| LedgerRuns.MoveAcceptedExactly | apps/api/src/modules/finance/payouts.service.ts:525-571 | a move is accepted exactly along the four documented transitions from the status that was read |
| LedgerRuns.RequestDebits | apps/api/src/modules/finance/payouts.service.ts:144-175 | an accepted request lowers the available balance by exactly its gross amount, at every instant |
| LedgerRuns.FreezingAllStopsPayouts | apps/api/src/modules/admin/moderation.service.ts:277-324 | in every run after everything was frozen, at every instant, no more is available than the nets of later sales, what was unfrozen and what payouts returned since; while these add up to nothing no payout is accepted |
| LedgerRuns.ReleaseHoldsIsIdempotent | apps/api/src/modules/finance/ledger.service.ts:238-315 | releasing an event's blocked money on a current reading keeps the total, leaves nothing undated, and does nothing the second time |
| LedgerRuns.OtherReadingsStay | apps/api/src/modules/finance/ledger.service.ts:242-265 | releasing one event leaves the readings of the others current |
| LedgerRuns.StaleBalanceOverdraws | apps/api/src/modules/finance/payouts.service.ts:111-147 | witness: two requests checked against one reading of the balance overdraw it |
| LedgerRuns.StaleStatusReversesTwice | apps/api/src/modules/finance/payouts.service.ts:538-571 | witness: two conclusions that read the same status both return the amount |
| LedgerRuns.StaleStatusReopensPaid | apps/api/src/modules/finance/payouts.service.ts:496-571 | witness: two conclusions that read the same status, one paying and one failing, return the amount of a paid payout, and no sum shows it |
| LedgerRuns.StaleFreezeThawsTwice | apps/api/src/modules/admin/moderation.service.ts:345-376 | witness: two releases of one reading thaw the same money twice |
| Phone.NormalizePhoneForCountry | packages/utils/src/phone-country.ts:104-140 | rewriting the national part step by step computes the country's rule, or its error |
| Phone.NormalizePhone | packages/utils/src/phone.ts:102-142 | rewriting the national part step by step computes the Beninese rule, or its error |
| Phone.AcceptedIsCanonical | packages/utils/src/phone-country.ts:167-182 | everything accepted is `+`, a registered dialling code and a national number of the right length |
| Phone.AcceptedExactly | packages/utils/src/phone-country.ts:167-182 | what comes out of the international rule is exactly the numbers of the eleven countries, each with its code and length, and these are left alone |
| Phone.NormalizeIsIdempotent | packages/utils/src/phone-country.ts:167-182 | normalising twice changes nothing, on every accepted input |
| Phone.AnnouncedCountryDecides | packages/utils/src/phone-country.ts:151-182 | a number that announces a country is read by its rule or refused, never as another country's |
| Phone.SpellingsExactly | packages/utils/src/phone-country.ts:104-140 | exactly the spellings that a country's rule reads as a given number: with or without the dialling code, the trunk zero, or in Benin the two digits of the new plan |
| Phone.BeninSpellingsExactly | packages/utils/src/phone.ts:102-142 | the same for the Beninese rule, which knows no trunk zero and wants `01` |
| Phone.RegistrySpellings | packages/utils/src/phone-country.ts:104-140 | an announced number is accepted always, with or without trunk zero; unannounced, or with the trunk zero alone, exactly unless it looks like `00` and the code |
| Phone.RefusedExactly | packages/utils/src/phone-country.ts:104-140 | which input is refused as empty, as not numeric, or for its length |
| Phone.CodesInAnyCase | packages/utils/src/phone-country.ts:71-73 | a country is found exactly by its code in letters of either case |
| Phone.NormalizeUndoesFormat | packages/utils/src/phone.ts:163-189 | normalising undoes the international display, for every number of every registered country |
| Phone.AcceptedRoundTrips | packages/utils/src/phone.ts:163-189 | whatever is accepted can be displayed and read back |
| Phone.NationalDisplayReadBack | packages/utils/src/phone.ts:163-189 | the national display is read back by the country's rule exactly when the number does not begin with `00` and the dialling code |
| Phone.GroupedExactly | packages/utils/src/phone.ts:178-189 | the display groups digits by two, with a first group of three when their number is odd |
| Phone.SplitCanonical | packages/utils/src/phone-country.ts:188-193 | splitting an E.164 number gives its dialling code and national digits |
| Phone.SpellingsAgree | packages/utils/src/phone.ts:90-142 | all documented spellings of one ten-digit number, with any separators, have one normal form under the Beninese rule, the registry's rule and the international one |
| Phone.LegacySpelling | packages/utils/src/phone.ts:114-130 | an old eight-digit number is migrated except exactly when it begins with `00229`, or `00` for the international rule |
| Csv.ParseUndoesPrint | apps/api/src/common/csv.ts:13-40 | a reader of RFC 4180 gives back every cell's text; the whole table exactly when no line is empty |
| Csv.CellsComeBack | apps/api/src/common/csv.ts:13-40 | read back, row i and cell j of the file hold what the cell held: its text, its number in decimal, or nothing |
| Csv.PlainWherePossible | apps/api/src/common/csv.ts:23-40 | a file begins with the byte order mark, and a text is quoted exactly when it contains a separator, a quote or a break |
| Csv.FinalBreakIsAmbiguous | apps/api/src/common/csv.ts:13-15 | a reader that takes a final break for an end of record loses the last row exactly when it is one empty cell |
| Slug.FullSlugIsWords | packages/utils/src/slug.ts:18-26 | before truncation a slug is the runs of letters and digits of the text, in order, joined by dashes |
| Slug.SlugifyIsValid | packages/utils/src/slug.ts:17-34 | a slug is empty or matches the pattern, for every truncation length but 2, where exactly a dash in second place breaks it |
| Slug.SlugifyIsIdempotent | packages/utils/src/slug.ts:17-34 | slugging twice changes nothing, except exactly where the first time cut at a dash |
| Slug.AccentsVanish | packages/utils/src/slug.ts:18-22 | a combining mark counts for nothing, anywhere in a text |
| Slug.SpellingDoesNotMatter | packages/utils/src/slug.ts:18-24 | a capital counts for its small letter, and a ligature for its two letters |
| Slug.CutExactly | packages/utils/src/slug.ts:27-34 | a longer slug is cut before the last dash that fits when that leaves more than half of the length, else at the limit |
| Slug.ShapedExactly | packages/utils/src/slug.ts:51-53 | the pattern by words and the pattern from left to right agree |
| Slug.UniqueSlug | packages/utils/src/slug.ts:41-49 | the search ends, and gives the base or the smallest free suffix from two on |
| Slug.CandidateIsValid | packages/utils/src/slug.ts:41-53 | a suffixed slug matches the pattern, and is valid exactly while it fits in 60 characters |
| Payments.SucceededExactly | packages/contracts/src/orders.ts:261-293 | a stream without refunds ends in success exactly when it reports success |
| Payments.PaidStreamEnds | packages/contracts/src/orders.ts:248-293 | after the first success nothing counts but refunds, a full one for good |
| Payments.UnpaidStreamEnds | packages/contracts/src/orders.ts:248-293 | without a success the first verdict that the state allows is final, and before it a payment only moves forward |
| Payments.OrderDoesNotMatter | packages/contracts/src/orders.ts:261-293 | two streams with the same statuses, in any order, agree on payment |
| Payments.RunsAreShort | packages/contracts/src/orders.ts:248-293 | at most six transitions, success at most once, never unpaid or pending again |
| Payments.SixTransitions | packages/contracts/src/orders.ts:261-287 | the bound of six is reached |

## Left out

- Arbitration of scans on the server, order and refund services, stock reservation: their rules are in the database.
- Refunds in the ledger: `REFUND` and `REFUND_FEE_REVERSAL` entries have signs but no operation here, so the run theorems are about sales, releases, payouts and freezes.
- Cryptography, `fetch`, the DOM, React, Next, Nest and Prisma: foreign calls, kept as parameters and events.
- `atob` beyond base64url text: only its treatment of padding, lengths and characters is modelled.
- Unicode decomposition in `slugify`: the text comes decomposed, where lower-casing concerns the letters A to Z only.
- `detectOperator`, `maskPhone`, labels, date formatting, schemas, permissions and the admin screens: tables and single branches that nothing else here depends on.
- SlotStore.FileIsAsIntended: a failed read is followed by writes like any other; what was on disk is then overwritten, and counts as never read.
- SlotMask.MaskIsNeverStranded: for connected elements, since a disconnected one is not rendered when the store changes.
- SlotMask: the reframing state, the drag depth and the error message of the element.
- SlotGeometry: `Math.pow` of the wheel is any positive factor; rounding errors.
- PageCache.BoundedByPendingTrims: deletes are taken not to fail.
- TicketCache.VisitorsAreServed: the offline page stands for both forms of that response, the page and the empty answer to a request that is not a navigation.
- Ledger.LedgerService.ReleaseUnverifiedHolds: the events come with their ends; looking them up and the log are left out, and so is the transaction it shares with the verification.
- Ledger.LedgerService.RequestPayout: account and currency checks are one flag.
- Ledger.LedgerService.Transition: the cause that a failure must carry, the audit and the account mark are left out.
- Fees.SummedCommissions: without a fixed part, a floor or a cap, as those are not linear in the order.
