# Verified models of the Punks monorepo

This project models the parts of the repository whose correctness is easy to state and hard to see: the image codec
of `punks-sdk`, the event indexers of `punks-subgraph`, seed sampling and seed hashing, and the two small state
machines behind the web application's auction and proposal pages. Code that updates state in the original is a class
with methods here, or a method with loops; each method is proved against a function of its inputs or of the old state,
and the lemmas say what that function means. `dafny verify dfyconfig.toml` checks everything.

## What is modelled

**Image codec** (`Hex`, `RunLength`, `SvgBuilder`, `Images`, `RoundTrip`, `PngCollectionEncoder`, `ShiftedPalette`,
`CollectionFormat`).
`Image.toRLE` crops an image, turns its pixels into palette numbers and prints runs of them as two-digit hexadecimal;
`decodeImage` and `buildSVG` read the text back and split the runs into rectangles one row high. The results: the
printed text parses back exactly if every number fits in two digits; the crop is the smallest rectangle that holds the
content; no list of byte-sized runs is shorter; the rectangles paint exactly the decoded runs, pixel by pixel, without
overlap, for any bounds at all; an image drawn from its own payload is the image, red, green and blue of each pixel,
exactly if the right bound and the palette numbers fit in a byte; drawing a stack of such payloads never throws and paints the topmost opaque pixel; and
every payload an encoder has stored keeps drawing its own image however far the shared palette has grown since.

**Event indexers** (`NErc721`, `NErc721Index`, `NErc721History`, `DelegateCount`, `DelegateLedger`, `OgPunks`,
`OgPunksIndex`, `OgPunksHistory`, `NDao`). The handlers work on stored entities: loading copies an entity out, saving
writes it back, and the order of loads and saves is that of the source. For
NTokens the index is right if every account lists its punks, every delegate lists the punks delegated to it, and the
counters count; its delegates must be those of the token contract. For CryptoPunks it must agree with two plain ledgers,
the original contract's and the wrapper's. For
proposals the tallies must be the sums of the stored votes, and the state shown must be the governance contract's.
The main theorems are about whole runs from the empty store: the index is right after every event of a run exactly if
every event met its guard. The histories say what runs leave behind in terms of the events alone.

**Seeds** (`SeedHash`, `Grouping`, `Sampler`, `RandomSeeds`, `DrawableSeeds`, `Exclusion`). `calculateSeedHash` is a
canonical form with a fixed place for every number.
`getRandomPunkSeed` takes its random numbers from a function `random(k, max)`, the k-th value of
`Math.random() * max`; whatever the function, a seed is safe, and it never joins accessories that exclude each other
exactly if the exclusive groups leave no such pair in different parts. The seeds that can be drawn are stated exactly, and
so is when there are any. The bit masks of `populate-seeder` describe the
same relation as the sampler's parts exactly if the groups do not overlap.

**Web application** (`AuctionSlice`, `NDao`). Bids that repeat or arrive in any order leave the auction in the same
state, the bidder exactly if the largest bids come from one sender; what a settlement shows lasts exactly until a late
bid says otherwise.

## Findings

Some promises do not hold of the code as it is. Each is stated as a lemma with an input, beside the exact condition
under which the promise holds.

- An NToken transferred by its owner to itself is listed twice (`NErc721Index.SelfTransferBreaks`; exactly when:
  `TransferExact`), since both parties are loaded before either is saved. The token contract emits such a transfer
  itself when a punk is minted to the contract's owner (contracts/base/ERC721.sol:365-366).
- Delegating before holding any punk records a delegate without a balance (`NErc721Index.EarlyDelegationBreaks`; exactly
  when: `DelegationExact`).
- `totalDelegates` is overwritten by a stale copy: the first mint leaves a delegate uncounted
  (`DelegateCount.MintedDelegateIsNotCounted`; exactly when: `CountExact`, `RunCountsExact`).
- A holder that delegated, sold out and came back is its own delegate in the index and still represented by another in the
  contract (`DelegateLedger.ReturningHolderIsReset`; exactly when: `FollowExact`, `RunFollowsExact`).
- A CryptoPunk transferred to its own owner, assigned to a second account, or delegated again to its delegate is listed
  twice (`OgPunksIndex.OwnTransferBreaks`, `SecondAssignBreaks`, `RedelegationBreaks`; exactly when: `PunkTransferExact`,
  `AssignExact`, `OGDelegateExact`). Wrapped transfers have no such case: the sender is saved before the receiver is
  loaded.
- A proposal nobody voted on is shown as active for ever after it was defeated (`NDao.SilentDefeat`), and one canceled
  after a veto as canceled (`NDao.CancelAfterVeto`); with a positive voting delay these are all (`DelayedStateExact`). A
  third case, `EarlyActive`, takes a voting delay of zero, which the governance contract does not allow
  (contracts/governance/NDAOLogicV1.sol:82); `ShownStateExact` covers it.
- `proposalsQueued` should be the number of proposals currently queued (packages/punks-subgraph/schema.graphql:355-356),
  but one cancelled or vetoed while queued is counted for ever (`NDao.CanceledIsStillCounted`; exactly when:
  `QueuedCountExact`).
- `getRandomPunkSeed` reads the weights of the numbers of accessories at the top of the probability document, where the
  shipped one has none, so with it every call throws (`RandomSeeds.ShippedAlwaysThrows`; exactly when there is a seed:
  `SomeSeedIff`).
- The shipped exclusive groups overlap for female punks: a hat and goggles exclude each other but stand in different
  parts (`Grouping.FemaleGroupsOverlap`). With the missing weights given, draws that join them are constructed
  (`RandomSeeds.FemaleHatAndGogglesMeet`; exactly when exclusive types can meet: `ExclusionKeptIff`), and the sampler and
  the masks disagree (`Exclusion.SamplerAgreesIff`).
- A constructor palette keeps keys and numbers together exactly if it is `Unshifted`: distinct and with `''` first,
  or starting with a color given twice. A palette of one color without `''` hides that color
  (`ShiftedPalette.PlainPaletteHidesColor`; exactly when: `SinglesDrawnIff`).
- `setFullAuction` keeps the bids of the previous auction, and the first bid on the new one can then show the amount of an
  old one (`AuctionSlice.StaleBidsAfterSetFull`; exactly when: `OwnBidShownIff`).

## Model

| member | source | states |
|---|---|---|
| Hex.PaddedHexRoundTrip | packages/punks-sdk/src/image/utils.ts:6-8 | `parseInt` reads a padded number back; two digits are enough exactly for a byte |
| Hex.ByteDigits | packages/punks-sdk/src/image/utils.ts:6-8 | a byte is printed as its two lower-case digits, the high one first |
| Hex.FillIff | packages/punks-sdk/src/image/utils.ts:16-18 | a color's key is the one text of six lower-case digits whose first two read back as red, the next as green, the last as blue |
| Hex.RgbToHexInjective | packages/punks-sdk/src/image/utils.ts:16-18 | two colors share a key exactly if red, green and blue agree |
| RunLength.CompressExpands | packages/punks-sdk/src/image/image.ts:71-91 | the runs stand for exactly the data, with counts from 1 to 255 and only the data's values |
| RunLength.CompressIsMinimal | packages/punks-sdk/src/image/image.ts:71-91 | no list of runs with byte-sized counts that stands for the same data is shorter |
| RunLength.CompressIsCanonical | packages/punks-sdk/src/image/image.ts:71-91 | of all lists of byte-sized runs that stand for the data, it is the one in which a run is full before another of its value begins |
| RunLength.ParsePrintedRuns | packages/punks-sdk/src/image/svg-builder.ts:16-25 | chunks of four digits read back the printed runs if they fit in two digits each |
| RunLength.ParsedRunsAreBytes | packages/punks-sdk/src/image/svg-builder.ts:20-24 | whatever hexadecimal text is read, every count and color number is a byte |
| SvgBuilder.DecodeInvertsSerialize | packages/punks-sdk/src/image/svg-builder.ts:7-27 | decoding the printed text gives its bounds and runs back exactly if all of them fit in two digits |
| SvgBuilder.PayloadLayout | packages/punks-sdk/src/image/image.ts:56-64 | in a printed payload the four bounds, top, right, bottom, left, stand at digits 4, 6, 8 and 10, and run k at digit 12 + 4k, its length before its color number, each as two lower-case digits |
| SvgBuilder.PrefixIsOptional | packages/punks-sdk/src/image/svg-builder.ts:8 | decoding does not depend on the `0x` in front |
| SvgBuilder.DecodedFieldsAreBytes | packages/punks-sdk/src/image/svg-builder.ts:7-27 | whatever text of hexadecimal fields is decoded, bounds and runs are bytes |
| SvgBuilder.PixelLandsAt | packages/punks-sdk/src/image/svg-builder.ts:53-87 | pixel k of the expanded runs lands at (left + k mod w, top + k div w) and nowhere else |
| SvgBuilder.GetRectLength | packages/punks-sdk/src/image/svg-builder.ts:33-36 | the smaller of what is left to draw and what is left of the row |
| SvgBuilder.PaintPiece | packages/punks-sdk/src/image/svg-builder.ts:59-87 | drawing one more piece paints that many more pixels, changes no other, and keeps the rectangles in order and in bounds |
| SvgBuilder.PaintedOnce | packages/punks-sdk/src/image/svg-builder.ts:59-87 | no two rectangles of a part cover the same pixel |
| SvgBuilder.DrawOne | packages/punks-sdk/src/image/svg-builder.ts:60-84 | one piece of a run is drawn unless transparent, and the pen moves on, to the next row at the right bound |
| SvgBuilder.DrawRun | packages/punks-sdk/src/image/svg-builder.ts:56-88 | one run is split at the right bound into pieces that paint exactly its pixels, and ends for any bounds; it throws exactly if it reads a palette entry that is not there |
| SvgBuilder.DrawPart | packages/punks-sdk/src/image/svg-builder.ts:49-92 | the rectangles of a part show exactly what its expanded runs say, pixel by pixel, with as much area as there are non-transparent pixels; empty bounds draw nothing |
| SvgBuilder.PaintedOver | packages/punks-sdk/src/image/svg-builder.ts:90-91 | later rectangles hide earlier ones where they paint |
| SvgBuilder.BuildSVG | packages/punks-sdk/src/image/svg-builder.ts:44-96 | the whole drawing shows, at each pixel, the last part that paints it; it throws exactly if a part misses a palette entry |
| Images.ColorMap.Set | packages/punks-sdk/src/image/image.ts:47-49 | a JavaScript map keeps the position of a key set again, and appends a new one |
| Images.ColorMap.Number | packages/punks-sdk/src/image/image.ts:46-52 | a known color keeps its number, a new one gets the number of keys so far |
| Images.AddKeysOrdered | packages/punks-sdk/src/image/image.ts:46-49 | whatever the map, its keys stay in order and are the palette with exactly the new colors appended |
| Images.AddKeysExtends | packages/punks-sdk/src/image/image.ts:46-49 | no number is ever changed, and looking up known colors changes nothing |
| Images.AddKeysAligned | packages/punks-sdk/src/image/image.ts:46-49 | keys that are at their own numbers stay so |
| Images.AddColorsExtends | packages/punks-sdk/src/image/image.ts:46-49 | the palette grows only by appending, by exactly the new colors, without repetition |
| Images.Image.IsTransparentColumn | packages/punks-sdk/src/image/image.ts:122-129 | true exactly if the column has no opaque pixel |
| Images.Image.IsTransparentRow | packages/punks-sdk/src/image/image.ts:131-138 | true exactly if the row has no opaque pixel |
| Images.Image.CalcBounds | packages/punks-sdk/src/image/image.ts:93-120 | the tight crop: it holds every opaque pixel and each edge touches one, or it is the empty crop at the origin |
| Images.TightIsSmallest | packages/punks-sdk/src/image/image.ts:93-120 | a tight crop lies inside every rectangle that holds the content, and is empty exactly for a transparent image |
| Images.Image.IndexPixel | packages/punks-sdk/src/image/image.ts:43-52 | a pixel adds its color to the palette even if transparent, and its index is the number of that color, or 0 if it is transparent |
| Images.Image.IndexPixels | packages/punks-sdk/src/image/image.ts:39-54 | one index for each cell of the crop in row-major order |
| Images.Image.Encode | packages/punks-sdk/src/image/image.ts:71-91 | the loop prints exactly the runs of `Compress` |
| Images.AlignedNumbersName | packages/punks-sdk/src/image/image.ts:51-52 | with keys at their own numbers, the indices name the colors of the crop, and 0 exactly the transparent pixels |
| Images.Image.ToRLE | packages/punks-sdk/src/image/image.ts:36-65 | for any color map, the text is the printed bounds and runs of the tight crop's numbers, and the map grows by the crop's colors only |
| RoundTrip.RleShowsIffItFits | packages/punks-sdk/src/image/image.ts:36-91 | with content in the first 256 rows, the decoded drawing gives every opaque pixel, at its own place, a palette entry that reads back as its red, green and blue, and no other pixel any, exactly if the right bound and every index are bytes |
| RoundTrip.RleShows | packages/punks-sdk/src/image/image.ts:36-91 | an image of at most 255 x 256 pixels with at most 256 colors always round-trips, to the red, green and blue of each opaque pixel |
| RoundTrip.ShownFits | packages/punks-sdk/src/image/svg-builder.ts:7-27 | no text of hexadecimal fields can show a pixel beyond column 254 or a color beyond number 255 |
| RoundTrip.StackShowsTopmost | packages/punks-sdk/src/image/svg-builder.ts:49-92 | the decoded parts of a stack, taken together, show the red, green and blue of the topmost opaque pixel |
| RoundTrip.ShownMissesNothing | packages/punks-sdk/src/image/svg-builder.ts:61-64 | a payload that shows its image reads no palette entry that is not there |
| RoundTrip.StackIsDrawn | packages/punks-sdk/src/image/svg-builder.ts:44-96 | drawing a stack of payloads that show their images never throws, and the rectangles paint at each pixel the red, green and blue of the topmost image opaque there, and nothing where there is none |
| PngCollectionEncoder.SeedAlignedIffUnshifted | packages/punks-sdk/src/image/png-collection-encoder.ts:9-18 | a constructor palette leaves every key at its own number exactly if it is unshifted |
| PngCollectionEncoder.Encoder.constructor | packages/punks-sdk/src/image/png-collection-encoder.ts:15-18 | stores the given colors on top of the transparent entry; the encoder is valid, and its keys are at their own numbers exactly for unshifted palettes |
| PngCollectionEncoder.PaletteAfter | packages/punks-sdk/src/image/png-collection-encoder.ts:40-42 | encoding an image only appends to the palette, changes no number, and keeps keys at their own numbers if they were |
| PngCollectionEncoder.StoreRle | packages/punks-sdk/src/image/png-collection-encoder.ts:40-44 | storing one more payload keeps every payload the encoding of its own image under the grown palette |
| PngCollectionEncoder.Encoder.EncodeImage | packages/punks-sdk/src/image/png-collection-encoder.ts:40-51 | an encoder with any constructor palette stays valid: every payload is the encoding of its own image under the stored numbers; the payload is stored under its name, the palette only grows, and the name is pushed to its folder if it has one |
| PngCollectionEncoder.StoredImageShowsIff | packages/punks-sdk/src/image/png-collection-encoder.ts:23-51 | however many images were encoded since, a stored payload with content in the first 256 rows draws its own image under the current palette exactly if its right bound and its own indices are bytes |
| PngCollectionEncoder.EveryImageShows | packages/punks-sdk/src/image/png-collection-encoder.ts:23-51 | with at most 256 colors and images of at most 255 x 256 pixels, every stored payload still draws its own image |
| PngCollectionEncoder.StoredStackDraws | packages/punks-sdk/src/image/svg-builder.ts:44-96 | drawing any stack of stored payloads that show their images returns rectangles that paint the topmost opaque color at each pixel |
| ShiftedPalette.EncodedSingle | packages/punks-sdk/src/image/image.ts:36-65 | encoding one pixel of a known color prints its stored number and leaves the palette as it was |
| ShiftedPalette.SingleShowsIff | packages/punks-sdk/src/image/svg-builder.ts:49-92 | a single pixel is drawn in its own red, green and blue exactly if its number is not 0 and names the color |
| ShiftedPalette.PlainPaletteHidesColor | packages/punks-sdk/src/image/png-collection-encoder.ts:17 | given a palette of one color alone, a new encoder draws nothing for a pixel of that color |
| ShiftedPalette.SinglesDrawnIff | packages/punks-sdk/src/image/png-collection-encoder.ts:9-18 | with at most 256 colors, a new encoder draws every one-pixel image of a palette color in that color exactly if the palette is unshifted |
| CollectionFormat.FillFolder | packages/punks-sdk/src/image/png-collection-encoder.ts:74-81 | a folder's files are written in order with their payloads, and taken from the remaining ones |
| CollectionFormat.ByFolderIsPartition | packages/punks-sdk/src/image/png-collection-encoder.ts:69-93 | the listing holds every stored image with its payload at exactly one place, and nothing else, if no image was filed twice and no folder is `root` |
| CollectionFormat.ListedInOrder | packages/punks-sdk/src/image/png-collection-encoder.ts:74-91 | entries of a folder stand in the order in which they were filed, those under `root` in the order in which they were stored |
| CollectionFormat.PartitionNeedsFiledOnce | packages/punks-sdk/src/image/png-collection-encoder.ts:74-81 | a listing of all filed names that has each image at one place only means no image was filed twice |
| CollectionFormat.Format | packages/punks-sdk/src/image/png-collection-encoder.ts:65-95 | flattened or not, with no folder called `root`, the result lists every stored image with its payload exactly once, exactly if no image was filed twice; each folder then has its images in encoding order, and `root` the unfiled ones in encoding order |
| NErc721.Store.GetOrCreateAccount | packages/punks-subgraph/src/utils/helpers.ts:4-28 | returns the stored account or a new one, which it saves |
| NErc721.Store.GetOrCreateDelegate | packages/punks-subgraph/src/utils/helpers.ts:30-59 | returns the stored delegate or a new one, which it saves and counts unless it is the zero address |
| NErc721.Store.HandleTransfer | packages/punks-subgraph/src/n-erc-721.ts:106-218 | the new store is `TransferState` of the old one, both parties and the governance entity loaded first; what that leaves is stated by `TransferView` and, over runs, by `RunAmounts`, `RunHeld` and `RunExact` |
| NErc721.Store.HandleDelegateChanged | packages/punks-subgraph/src/n-erc-721.ts:45-67 | the new store is `DelegateState` of the old one: both delegates loaded before either is saved, the new one saved last |
| NErc721.Store.HandleDelegateVotesChanged | packages/punks-subgraph/src/n-erc-721.ts:85-103 | the new store is `VotesState` of the old one, written back over the governance entity loaded first |
| NErc721Index.TransferView | packages/punks-subgraph/src/n-erc-721.ts:106-218 | what a transfer leaves of every account, delegate list and owner, self-transfers and unknown parties included: the receiver has one punk more, held and ever received, and lists it last; the sender has one less and no longer lists it |
| NErc721Index.TransferOwners | packages/punks-subgraph/src/n-erc-721.ts:121-217 | each account lists, once each, exactly the punks it owns, and its balance is their number |
| NErc721Index.TransferDelegates | packages/punks-subgraph/src/n-erc-721.ts:132-207 | each delegate lists, once each, exactly the punks whose owner has delegated to it |
| NErc721Index.TransferCounters | packages/punks-subgraph/src/n-erc-721.ts:122-207 | `currentTokenHolders` counts the accounts with a positive balance, `totalTokenHolders` the punks that are not burnt |
| NErc721Index.TransferExact | packages/punks-subgraph/src/n-erc-721.ts:106-218 | a transfer keeps the whole index exactly if it is a mint or between two different accounts |
| NErc721Index.DelegationExact | packages/punks-subgraph/src/n-erc-721.ts:45-67 | a DelegateChanged event keeps the whole index exactly if it names the stored delegate as the previous one and another as the next |
| NErc721Index.VotesExact | packages/punks-subgraph/src/n-erc-721.ts:85-103 | a DelegateVotesChanged event keeps the whole index, with `delegatedVotesRaw` the sum and `currentDelegates` the number of delegates with votes, exactly if it starts from the stored votes and does not go from zero to zero |
| NErc721Index.StepExact | packages/punks-subgraph/src/n-erc-721.ts:45-218 | for every kind of event, the index survives exactly under the event's guard |
| NErc721Index.RunExact | packages/punks-subgraph/src/n-erc-721.ts:45-218 | over a whole run from the empty store, the index is right after every event exactly if every event met its guard |
| NErc721History.RunAmounts | packages/punks-subgraph/src/n-erc-721.ts:45-218 | after any run at all, an account's `totalTokensHeldRaw` is the number of transfers to it, a delegate's `tokenHoldersRepresentedAmount` the delegations to it less those from it and its `delegatedVotesRaw` the last reported, and a punk's owner the receiver of its last transfer |
| NErc721History.RunHeld | packages/punks-subgraph/src/n-erc-721.ts:106-218 | over every run that keeps the index, each account lists its punks in the order in which they came to it |
| DelegateCount.TotalDelegatesIsStale | packages/punks-subgraph/src/n-erc-721.ts:109-204 | in an indexed state, transfers and vote changes leave `totalDelegates` as it was, even when they create a delegate |
| DelegateCount.TouchCounts | packages/punks-subgraph/src/utils/helpers.ts:47-51 | creating a delegate on its own keeps the count right |
| DelegateCount.CountExact | packages/punks-subgraph/src/n-erc-721.ts:45-218 | in an indexed state, an event keeps `totalDelegates` the number of delegates exactly if it is a delegation, or creates no delegate to be counted |
| DelegateCount.RunCountsExact | packages/punks-subgraph/src/n-erc-721.ts:45-218 | over a whole run that keeps the index, the delegates are counted after every event exactly if every event met that condition |
| DelegateCount.MintedDelegateIsNotCounted | packages/punks-subgraph/src/n-erc-721.ts:184-207 | the first mint keeps the index, makes its receiver a delegate with a punk, and leaves `totalDelegates` at 0 |
| DelegateLedger.FollowExact | packages/punks-subgraph/src/n-erc-721.ts:45-218 | an event the contract emits keeps the index right, with every holder's delegate the contract's, exactly if a transfer has two parties and its receiver holds punks or represents itself, and a delegation is a holder's, to another account than before and not to the zero address |
| DelegateLedger.RunFollowsExact | packages/punks-contracts/contracts/base/ERC721Checkpointable.sol:89-92 | over a whole run of the contract, index and contract name the same delegates after every event exactly if every event met that condition |
| DelegateLedger.ReturningHolderIsReset | packages/punks-subgraph/src/n-erc-721.ts:202-206 | a holder that delegates, sends its only punk away and gets another is reset to itself by the index and not by the contract |
| NErc721Index.SelfTransferBreaks | packages/punks-subgraph/src/n-erc-721.ts:106-108 | a mint followed by a transfer to oneself breaks the index |
| NErc721Index.EarlyDelegationBreaks | packages/punks-subgraph/src/n-erc-721.ts:45-52 | delegating before holding anything breaks the index |
| OgPunks.OGStore.HandleOGPunkAssign | packages/punks-subgraph/src/og-cryptopunks.ts:11-25 | the new store is `AssignState` of the old one: the punk entity is made anew |
| OgPunks.OGStore.HandleOGPunkTransfer | packages/punks-subgraph/src/og-cryptopunks.ts:28-51 | the new store is `PunkTransferState` of the old one, both parties loaded first; for a punk that is not stored the handler stops and nothing changes |
| OgPunks.OGStore.HandleWrappedTransfer | packages/punks-subgraph/src/wrapped-punk.ts:11-48 | the new store is `WrappedTransferState` of the old one: the sender saved before the receiver is loaded, the wrapper's account in place of the zero address; for a punk that is not stored nothing changes |
| OgPunks.OGStore.HandleOGPunkDelegateChanged | packages/punks-subgraph/src/cryptopunks-vote.ts:12-33 | the new store is `OGDelegateState` of the old one; for a punk that is not stored nothing changes |
| OgPunksIndex.WrappedAgrees | packages/punks-subgraph/src/wrapped-punk.ts:11-48 | a wrap, an unwrap or a wrapped transfer, to oneself included, always keeps the index in step with both ledgers |
| OgPunksIndex.PunkTransferExact | packages/punks-subgraph/src/og-cryptopunks.ts:28-51 | a transfer of a bare punk keeps the index in step exactly if it is between two different accounts |
| OgPunksIndex.AssignExact | packages/punks-subgraph/src/og-cryptopunks.ts:11-25 | an assignment keeps the index in step exactly if the punk was not assigned before |
| OgPunksIndex.OGDelegateExact | packages/punks-subgraph/src/cryptopunks-vote.ts:12-33 | a delegation keeps every delegate's list exactly if the punk was not delegated, or leaves its stored delegate for another |
| OgPunksIndex.RunAssigns | packages/punks-subgraph/src/og-cryptopunks.ts:11-16 | in a run of the two contracts, the stored punks are exactly the assigned ones, so no handler ever loads a missing punk |
| OgPunksIndex.OGRunExact | packages/punks-subgraph/src/wrapped-punk.ts:11-48 | over a whole run of both contracts, stored owners, wrapped flags, lists, balances and delegations agree with the ledgers after every event exactly if each event met its guard |
| OgPunksHistory.RunHeldOG | packages/punks-subgraph/src/wrapped-punk.ts:11-48 | over every run of both contracts that keeps the index, each account lists its CryptoPunks, bare and wrapped, in the order in which they came to it |
| OgPunksHistory.RunDelegates | packages/punks-subgraph/src/cryptopunks-vote.ts:12-33 | over every run, a CryptoPunk's stored delegate is the last one it was given since it was assigned |
| OgPunksIndex.OwnTransferBreaks | packages/punks-subgraph/src/og-cryptopunks.ts:28-30 | an assignment followed by a transfer to the same account breaks the index |
| OgPunksIndex.SecondAssignBreaks | packages/punks-subgraph/src/og-cryptopunks.ts:11-25 | assigning a punk to a second account breaks the index |
| OgPunksIndex.RedelegationBreaks | packages/punks-subgraph/src/cryptopunks-vote.ts:12-33 | delegating a punk again to its delegate breaks the index |
| NDao.Store.HandleProposalCreated | packages/punks-subgraph/src/n-dao.ts:27-64 | the new store is `CreatedState` of the old one |
| NDao.Store.HandleProposalCanceled | packages/punks-subgraph/src/n-dao.ts:66-71 | the proposal is cancelled, whatever it was before, and nothing else changes; for a proposal that is not stored the handler stops and nothing changes |
| NDao.Store.HandleProposalVetoed | packages/punks-subgraph/src/n-dao.ts:73-78 | the proposal is vetoed, whatever it was before, and nothing else changes; for a proposal that is not stored the handler stops and nothing changes |
| NDao.Store.HandleProposalQueued | packages/punks-subgraph/src/n-dao.ts:80-90 | the proposal is queued with its execution time, and counted as queued (over runs: `RunCounters`, `StoredEta`); for a proposal that is not stored the handler stops and nothing changes |
| NDao.Store.HandleProposalExecuted | packages/punks-subgraph/src/n-dao.ts:92-102 | the proposal is executed without an execution time, and no longer counted as queued (over runs: `RunCounters`, `StoredEta`); for a proposal that is not stored the handler stops and nothing changes |
| NDao.Store.HandleVoteCast | packages/punks-subgraph/src/n-dao.ts:104-152 | the vote replaces the voter's stored one, its weight is added to the tally of its support, and a pending proposal becomes active; for a proposal that is not stored nothing changes |
| NDao.VoteTalliesExact | packages/punks-subgraph/src/n-dao.ts:104-152 | all tallies stay the sums of the stored votes exactly if the voter had no vote on the proposal that counted |
| NDao.LifecycleKeepsTallies | packages/punks-subgraph/src/n-dao.ts:27-102 | creating a proposal and every other event that leaves its tallies alone keeps all tallies right |
| NDao.DaoRunExact | packages/punks-subgraph/src/n-dao.ts:27-152 | over a whole run of any number of proposals, the tallies are right after every event exactly if nobody voted twice |
| NDao.VotesAreOnProposals | packages/punks-subgraph/src/utils/helpers.ts:79-100 | over every run, votes are on stored proposals only, and the governance counter is the number of proposals |
| NDao.RunCounters | packages/punks-subgraph/src/n-dao.ts:80-152 | over every run, `proposalsQueued` is the number of queueings less the number of executions, and each stored vote is the voter's last on that proposal |
| NDao.WaitingIsCounted | packages/punks-subgraph/src/n-dao.ts:80-102 | over every run the contract allows, `proposalsQueued` is the number of proposals that were queued and not executed |
| NDao.QueuedCountExact | packages/punks-subgraph/schema.graphql:355-356 | over every run the contract allows, `proposalsQueued` is the number of proposals currently stored as queued exactly if no queued proposal was cancelled or vetoed |
| NDao.CanceledIsStillCounted | packages/punks-subgraph/src/n-dao.ts:66-71 | a proposal created, voted for, queued and cancelled is counted as queued still |
| NDao.ProposalsAreSeparate | packages/punks-subgraph/src/n-dao.ts:27-152 | over every run, each proposal is stored as its own creation and actions alone leave it |
| NDao.IndexTracksLife | packages/punks-subgraph/src/n-dao.ts:27-152 | in every run the governance contract allows, the indexed proposal stands in a fixed relation to the contract's |
| NDao.ShownStateExact | packages/punks-webapp/src/wrappers/nDao.ts:295-336 | the state shown at a block and time is the contract's exactly unless a proposal without votes is past its end, it was created at or after its first voting block and that block has not passed, or it was cancelled after a veto |
| NDao.UndeterminedIff | packages/punks-webapp/src/wrappers/nDao.ts:295-336 | for any entity, block and time, the state is undetermined exactly if a pending or active one is shown without a block, or at block 0, or a queued one without a time or an execution time |
| NDao.UndeterminedInRun | packages/punks-webapp/src/wrappers/nDao.ts:295-336 | in a run the contract allows a queued proposal has its execution time, so only a missing block or time is left |
| NDao.StoredEta | packages/punks-subgraph/src/n-dao.ts:80-102 | over every run a proposal's execution time is the one it was last queued with, and is gone once it is executed |
| NDao.ShownInRunExact | packages/punks-webapp/src/wrappers/nDao.ts:295-336 | the same for each proposal of a run over many |
| NDao.DelayedStateExact | packages/punks-webapp/src/wrappers/nDao.ts:295-336 | with a positive voting delay, the state shown is the contract's exactly unless a proposal without votes is past its end, or it was cancelled after a veto |
| NDao.CancelAfterVeto | packages/punks-webapp/src/wrappers/nDao.ts:335 | a proposal cancelled after a veto is vetoed for the contract, and shown as cancelled |
| NDao.SilentDefeat | packages/punks-webapp/src/wrappers/nDao.ts:301-309 | a proposal nobody voted on is defeated, and shown as active |
| NDao.SecondVoteBreaksTally | packages/punks-subgraph/src/n-dao.ts:140-146 | a second vote of the same voter would leave the tally above the sum of the stored votes |
| SeedHash.SortByType | packages/punks-contracts/tasks/utils/index.ts:71 | sorting keeps exactly the accessories there are |
| SeedHash.SortIsSorted | packages/punks-contracts/tasks/utils/index.ts:71 | the sorted accessories ascend by type |
| SeedHash.SortIsStable | packages/punks-contracts/tasks/utils/index.ts:71 | accessories of equal type keep their order |
| SeedHash.SortedUnique | packages/punks-contracts/tasks/utils/index.ts:71-80 | without repeated types, the sorted order is determined by the accessories alone |
| SeedHash.PushPairs | packages/punks-contracts/tasks/utils/index.ts:72-80 | comparing neighbours of the sorted list accepts exactly the lists of bytes without any repeated type |
| SeedHash.Print | packages/punks-contracts/tasks/utils/index.ts:82-84 | the bytes are written back to front behind the mark `01`, and padded to 64 digits |
| SeedHash.CalculateSeedHash | packages/punks-contracts/tasks/utils/index.ts:56-87 | rejects exactly oversized values, more than 14 accessories or a repeated type; otherwise the hash is `SeedHash`, read number by number (`HashLayout`), and the seed's accessories are left sorted |
| SeedHash.HashLayout | packages/punks-contracts/tasks/utils/index.ts:62-84 | the hash of an accepted seed, read with `parseInt`: it ends in `01`; to the left stand the punk type, the tone, the number of accessories, then the type and id of each in ascending order of type; all digits before them are `0` |
| SeedHash.AcceptedPermutes | packages/punks-contracts/tasks/utils/index.ts:56-80 | whether a seed is accepted does not depend on the order of its accessories |
| SeedHash.HashIsBytes32 | packages/punks-contracts/tasks/utils/index.ts:82-86 | every accepted seed hashes to `0x` and 64 hexadecimal digits |
| SeedHash.HashAt | packages/punks-contracts/tasks/utils/index.ts:82-84 | byte i of the data stands at a fixed place of the hash |
| SeedHash.HashTextInjective | packages/punks-contracts/tasks/utils/index.ts:57-86 | equal hashes come from equal data |
| SeedHash.HashIsCanonical | packages/punks-contracts/tasks/utils/index.ts:56-87 | two accepted seeds hash equal exactly if type, tone and accessories are equal, in whatever order |
| Sampler.Accumulate | packages/punks-assets/src/utils.ts:58-60 | entry k is the sum of the first k + 1 weights |
| Sampler.PickRandom | packages/punks-assets/src/utils.ts:57-64 | the result is `Pick`: the first entry whose sum lies above the draw, or -1 |
| Sampler.PickIff | packages/punks-assets/src/utils.ts:57-64 | an entry is picked exactly by the draws that fall on it, so never one of weight zero; nothing is picked exactly if no weight is positive |
| Sampler.EveryWeightCanFall | packages/punks-assets/src/utils.ts:57-64 | every entry of positive weight is picked by some draw |
| Sampler.SelectParts | packages/punks-assets/src/utils.ts:107-112 | the drawn parts are `Picked`, each from the counts the earlier draws have left |
| Sampler.PickedAreSelected | packages/punks-assets/src/utils.ts:107-112 | whatever the draws, no part is drawn twice, none without images, and a draw fails exactly once the parts with images have run out |
| Sampler.PickAccessories | packages/punks-assets/src/utils.ts:114-119 | one accessory for each drawn part, by its own two draws; it throws exactly if a part is missing or has no images |
| Sampler.AccessoryIsFromPart | packages/punks-assets/src/utils.ts:116-118 | an accessory is of a type of its part, and its id is that of an image |
| Sampler.ImageIff | packages/punks-assets/src/utils.ts:116-118 | the accessory is image `id` of the drawn type exactly if the second draw falls into the interval of length one that starts at `id` |
| Grouping.IndexOf | packages/punks-assets/src/utils.ts:70 | the first index at which the item stands, or -1 exactly if it does not |
| Grouping.TakeGroup | packages/punks-assets/src/utils.ts:69-75 | the members of a group that are still there are taken out, each once |
| Grouping.GroupByExclusive | packages/punks-assets/src/utils.ts:65-80 | the parts are `Parts`, and hold every available type exactly once |
| Grouping.PartsArePartition | packages/punks-assets/src/utils.ts:65-80 | every available type stands with its first exclusive group or, if no group lists it, alone |
| Grouping.PartsInOrder | packages/punks-assets/src/utils.ts:65-80 | the members of a part stand in the order of their group, the single ones in the order of the available types |
| Grouping.SharePartIff | packages/punks-assets/src/utils.ts:65-80 | two available types share a part exactly if they have the same first exclusive group |
| Grouping.PartsKeepExclusionIff | packages/punks-assets/src/utils.ts:65-80 | every exclusive pair shares a part exactly for groups that do not overlap on the available types |
| Grouping.DisjointGroupsDoNotOverlap | packages/punks-assets/src/utils.ts:65-80 | disjoint groups never overlap |
| Grouping.FemaleGroupsOverlap | packages/punks-assets/src/config/probability.json:5-16 | the shipped groups overlap for female punks, on hats and goggles |
| Grouping.MaleGroupsDoNotOverlap | packages/punks-assets/src/config/probability.json:5-10 | they do not for male punks |
| RandomSeeds.GetRandomPunkSeed | packages/punks-assets/src/utils.ts:81-125 | the seed is what the draws pick from the parts of the drawn type's accessories; it throws if no type is picked or the document lacks the weights of the numbers of accessories |
| RandomSeeds.SomeSeedIff | packages/punks-assets/src/utils.ts:81-125 | some draws give a seed exactly if the document has the weights of the numbers of accessories at its top, and some punk type of positive weight allows one of these numbers |
| RandomSeeds.ShippedAlwaysThrows | packages/punks-assets/src/utils.ts:91-96 | without these weights, as in the shipped document, every call throws |
| RandomSeeds.FemaleHatAndGogglesMeet | packages/punks-assets/src/config/probability.json:5-17 | with the weights given, some draws give a female punk a hat and goggles, which exclude each other |
| RandomSeeds.ThrowsIff | packages/punks-assets/src/utils.ts:91-119 | drawing accessories throws exactly if the weights of their numbers are missing, or more are asked for than there are parts with images |
| RandomSeeds.SeedsAreSafe | packages/punks-assets/src/utils.ts:81-125 | whatever the draws, every accessory is available and has the id of one of its images, no type repeats, and no two share a part |
| RandomSeeds.DifferentPartsCanMeet | packages/punks-assets/src/utils.ts:81-125 | any two types with images in different parts are drawn together by some draws, if two or more accessories can be asked for |
| RandomSeeds.CountIsPossible | packages/punks-assets/src/utils.ts:91-112 | the number of accessories of a seed has weight, and at least as many parts have images |
| RandomSeeds.ExclusionKeptIff | packages/punks-assets/src/utils.ts:81-125 | whatever the draws, seeds of a type never join exclusive accessories, exactly unless two or more can be asked for and two exclusive types with images have different first groups |
| DrawableSeeds.DrawnIff | packages/punks-assets/src/utils.ts:81-125 | some draws give a seed exactly if its type has a probability of a thousandth or more, its skin tone and its number of accessories have weight and are below the number of parts, and its accessories are available, with an image each, of different types, no two with the same first exclusive group |
| DrawableSeeds.TypeWeightIs | packages/punks-assets/src/utils.ts:82-84 | a punk type's weight is the number of whole thousandths of its probability, and zero exactly below one thousandth |
| DrawableSeeds.PartsNumber | packages/punks-assets/src/utils.ts:65-80 | there are as many parts as exclusive groups and available types that no group lists |
| Exclusion.GroupMask | packages/punks-contracts/tasks/populate-seeder.ts:111-116 | the bits of a group's mask are those of its members, modulo 32, and no others; it throws exactly if a member is unknown |
| Exclusion.BitsDouble | packages/punks-contracts/tasks/populate-seeder.ts:106-109 | bits are counted from the lowest: the first is 1, and each is twice the one before it |
| Exclusion.AccExclusion | packages/punks-contracts/tasks/populate-seeder.ts:106-122 | bit j of mask i is set exactly if type i, or one that some group puts it together with, has that bit; with at most 32 types, exactly if i = j or some group holds both, and bits that belong to no type are clear; it throws exactly if a group names an unknown type |
| Exclusion.ManyTypesShareBits | packages/punks-contracts/tasks/populate-seeder.ts:106-109 | with more than 32 types, the first excludes the thirty-third whether or not a group says so |
| Exclusion.MasksSymmetric | packages/punks-contracts/tasks/populate-seeder.ts:106-122 | the masks describe a reflexive and symmetric relation |
| Exclusion.SamplerAgreesIff | packages/punks-contracts/tasks/populate-seeder.ts:106-122 | types of one part always exclude each other in the masks, and the converse holds exactly for groups that do not overlap |
| AuctionSlice.MaxBidIsMax | packages/punks-webapp/src/state/slices/auction.ts:48-52 | the largest bid, and among equal ones the oldest stored |
| AuctionSlice.AuctionStore.SetActiveAuction | packages/punks-webapp/src/state/slices/auction.ts:69-73 | a new auction without bids |
| AuctionSlice.AuctionStore.SetFullAuction | packages/punks-webapp/src/state/slices/auction.ts:74-77 | the auction is replaced, the bids are kept |
| AuctionSlice.AuctionStore.AppendBid | packages/punks-webapp/src/state/slices/auction.ts:78-86 | a bid on another auction or with a known hash changes nothing; any other is put first, and the auction shows the largest |
| AuctionSlice.AuctionStore.SetAuctionSettled | packages/punks-webapp/src/state/slices/auction.ts:87-93 | the settled auction takes the winner and the amount of the event |
| AuctionSlice.AuctionStore.SetAuctionExtended | packages/punks-webapp/src/state/slices/auction.ts:94-98 | of the same auction the end time alone changes (over runs: `ReplayTimes`); an event on another changes nothing |
| AuctionSlice.ReplayShows | packages/punks-webapp/src/state/slices/auction.ts:69-98 | after any replay of bid and extension events on a new auction, or on one set in full while no bids were stored, each of the auction's bids is stored exactly once, no other bid is, and the auction shows the largest |
| AuctionSlice.FirstLargestShown | packages/punks-webapp/src/state/slices/auction.ts:48-86 | after any replay with a bid on the auction, it shows the first of the largest bids to arrive |
| AuctionSlice.ReplayTimes | packages/punks-webapp/src/state/slices/auction.ts:69-98 | over every replay the start and the flag are those of the auction, and the end is that of the last extension of it; bids and events of other auctions change none of these |
| AuctionSlice.ReplayConverges | packages/punks-webapp/src/index.tsx:159-170 | from either start, two replays of the same bids, in any order and with repetitions, show the same amount, and the same bidder if the largest bids come from one sender |
| AuctionSlice.BidderConvergesIff | packages/punks-webapp/src/state/slices/auction.ts:48-86 | all replays of a set of bids show the same bidder exactly if its largest bids come from one sender |
| AuctionSlice.SettledReplay | packages/punks-webapp/src/state/slices/auction.ts:78-98 | a settlement leaves the stored bids alone, and its winner and amount last until a bid arrives that had not arrived before |
| AuctionSlice.SettlementShownIff | packages/punks-webapp/src/state/slices/auction.ts:78-93 | with later bids in any order, the settlement is shown exactly if none of them is new, or the largest of all bids says the same |
| AuctionSlice.OwnBidShownIff | packages/punks-webapp/src/state/slices/auction.ts:74-86 | whatever the next bid, the auction shows a bid of its own exactly if the largest stored bid is its own or there is none |
| AuctionSlice.StaleBidsAfterSetFull | packages/punks-webapp/src/state/slices/auction.ts:69-86 | creating an auction, bidding on it, setting another in full and bidding less on that shows the amount and bidder of the first bid |

## Left out

- SVG text: rectangles are in pixels and colour numbers; the scaling by four, the viewBox of 384 units that clips columns and rows from 96 on, fills, the opacity attribute, the frame around the rectangles and base64 are not modelled. A colour printed by `rgbToHex` has no opacity digits.
- SvgBuilder.BuildSVG: takes parts whose numbers all parse; a payload with a number that is NaN is not modelled, nor are the blanks, signs and inner `0x` that `parseInt` skips.
- RoundTrip.RleShowsIffItFits: is stated for content in the first 256 rows, because a longer bottom bound shifts every later field of the text.
- Images.Image.CalcBounds: takes images with at least one row; with none the source prints a negative bound.
- `Image.tuples`: it omits the last run and nothing reads it.
- PNG reading and `writeToFile`: an image is its size and a function from positions to colors.
- PngCollectionEncoder.Encoder.EncodeImage: takes images with at least one row, as `CalcBounds` does.
- CollectionFormat.Format: the result is a map from folders to lists, so the order of the folders is not stated, and nothing is claimed if a folder is called `root`; the entry of an image filed before has no payload, which is stated only through the failure of the partition.
- TransferEvent, DelegationEvent and OGPunkDelegationEvent records, log messages, and the fields that repeat another one (`tokenBalance`, `ogpunkBalance`, `delegatedVotes`, `totalTokensHeld`).
- `tokenHoldersRepresentedAmount` counts delegations (`RunAmounts`) and is not claimed to count holders: accounts that become their own delegate are not counted.
- An absent governance entity is the same as one full of zeros; the source never stores the difference.
- Account and Delegate entities are split into the part the NToken handlers touch and the part the CryptoPunks handlers touch; no handler touches both. The CryptoPunks part leaves out `totalDelegates` and `handleOGPunkDelegateVotesChanged`, which stores one number.
- PunkBought and accepted bids of the CryptoPunks contract are not indexed by the source, so a ledger moves a bare punk by PunkTransfer events only.
- A handler that stops is taken to undo what it did before: a missing CryptoPunk is read, or a proposal without its required fields is saved.
- NDao.ShownStateExact: of the governance contract only the state of a proposal and when its events can happen are modelled (NDAOLogicV1.sol, state.test.ts), with block numbers that do not decrease and `startBlock <= endBlock`; who may act, and the timelock, are not. Of the token contract only transfers and delegations are.
- The proposer, targets, texts and transaction hashes of proposals, vote reasons and the delegates a vote creates.
- SeedHash.CalculateSeedHash: takes natural numbers; negative or fractional ones are not modelled.
- RandomSeeds.GetRandomPunkSeed: accessory types named by a punk type must be among `acc_types`. Real numbers stand for floating-point ones.
- `getPunkData`, `shiftRightAndCast`, `getPseudorandomPart`, `chunkArray` and `pseudoRandomPredictableShuffle` would only add easy members.
- AuctionSlice.SettledReplay: has one settlement between bids and extensions; runs of several auctions are modelled by `Play`, of which only the stale bid is shown.
- The other contracts, deployment tasks, bots, React components, queries and translations.
