# Verified model of the axiom-encode trust boundary

A Dafny model of the parts of axiom-encode whose correctness does not follow from
reading one function: the corpus resolver (delimiter replay, descendant composition,
paragraph slicing, numeral patterns), the signing boundary (frame scanner, broker and
external signer), the concept rewrite of legacy exact dependents, the signed encoding
queue, the replacement overlay, and the release inventory that the resolver relies on.

`dafny verify dfyconfig.toml` checks the whole project.

Each component has a specification part (values, functions and lemmas) and, where the
original updates state, an imperative part (classes, loops) proved equal to it.

| component | specification | imperative part |
|---|---|---|
| delimiter replay | `DelimiterReplay`, `DelimiterNesting`, `DelimiterReading`, `DelimiterEnclosure` | `DelimiterIndex` |
| descendant composition | `Composition`, `SiblingOrder` | `Composer` |
| paragraph slicer | `LegalMarkers`, `LegalAssignment`, `LegalEvidence`, `EvidenceAnswers`, `LegalSlicer`, `SlicerFinds`, `SlicerFails`, `LegalDepth`, `TurnLoop` | `LegalSlicerLoop`, `LegalSlicerText` |
| slicing round trip | `LegalTree`, `TreeOutline`, `LegalOutline`, `OutlineSlices`, `TreeSlices`, `StatuteSlices` | |
| numeral pattern | `NumericStem` | `NumericStem` |
| frame scanner | `JsonGrammar`, `JsonScan` | `JsonKeyScanner` |
| signing boundary | `SigningWire`, `SigningServer`, `SigningClient`, `SigningBroker`, `SigningExposure`, `SigningService`, `SigningRouting` | classes in `SigningServer`, `SigningBroker` |
| concept rewrite | `ConceptFormula`, `ConceptPrint`, `ConceptRenaming`, `ConceptParameters`, `ConceptDerivation`, `ConceptRewrite`, `ConceptSuccess`, `ConceptCapture` | methods in the same modules |
| signed queue | `SignedQueue`, `QueueTransitions`, `QueueHistory`, `QueueRuns`, `QueueFinalization`, `QueueDispositions` | methods in the same modules |
| replacement overlay | `OverlayTree`, `ReplacementOverlay`, `OverlayFields` | `OverlayStaging` |
| release inventory | `ReleaseInventory` | `ReleaseResolver` |

`Common`, `Collections` and `PathText` hold what several components share.

## Results that differ from what one would expect

- **Batch delimiter replay.** One pass agrees with a replay per marker exactly for the
  offsets up to which no supplied offset lies inside a backtick run
  (`BatchRefinesSingle`); an offset inside a run silences every later one
  (`BatchCanMissEnclosed`). Offsets of `(` and `[`, which is what callers pass, are never
  affected (`BatchAgreesOnBrackets`).
- **Empty payloads.** Marshalling drops an empty payload, so the signer refuses the
  request and the broker ends; signing succeeds exactly for nonempty payloads whose
  frame fits while 64-bit IDs last (`SignSucceedsIff`, `RunReply`).
- **Concept capture.** The derivation does not refuse a successor name under which the
  dependent already has a rule of its own; with one retained module read as it is,
  rewriting then changes what a formula means (`DerivationCanCapture`). Exactly, for
  every derivation: on each date of its period a formula keeps its meaning for all
  values of its own names if and only if it uses none of the new names
  (`DerivedRewriteIsExact`).
- **Overlay staging is not all-or-nothing.** After the checks it completes exactly when no
  file is unlinked twice and no removed file is its own prune floor (`Checkout.Stage`,
  which also gives the tree that either failure leaves); contracts that violate either condition
  pass all checks (`ManifestMayBeDeletedTwice`, `FloorMayBeRetired`).
- **Slicing is not always the inverse of printing.** Slicing the print of a tree of
  paragraphs for the path of each paragraph returns exactly its print if and only if
  every marker is chosen for the level it has in the tree (`RoundTripIff`; the choice is
  stated by `LegalAssignment.Chosen`). A lone clause `(i)` below a subsection `(h)` of a
  regulation is chosen for the next subsection (`LoneClauseIsTaken`). Statutes of up to
  three levels whose top-level letters have no gap always round-trip
  (`StatuteRoundTrip`).
- **Depth limit of the slicer.** The limit of 64 levels is checked only where a marker is
  kept as provisional scope. It bounds the provisional levels and nothing else: the
  stack is bounded by the retained ancestors and the markers read (`DepthIsBounded`),
  and every depth up to the marker limit of 4,096 is reached without an error, 65
  included (`AnyDepthIsReached`, `LimitIsPassed`). Exactly: provisions of `m` markers,
  sliced without retained ancestors, stay within 64 levels if and only if `m` is at
  most 64 (`LimitHoldsIff`).

## Model

| member | source | states |
|---|---|---|
| `DelimiterReplay.BatchRefinesReach` | src/axiom_encode/corpus_resolver.py:3324-3503 | From any loop state, the batch reports an offset iff no supplied offset up to it is inside a backtick run and the replay that only watches this offset reaches it enclosed. |
| `DelimiterReplay.BatchRefinesSingle` | src/axiom_encode/corpus_resolver.py:3062-3507 | Whenever the batch call returns, an offset is in its result iff it is unblocked and the single-marker call reports it; for unblocked offsets the single call returns too. |
| `DelimiterReplay.BatchAgreesOnBrackets` | src/axiom_encode/corpus_resolver.py:3062-3507 | For ordered offsets of `(` or `[` batch and single-marker replay agree on every offset. |
| `DelimiterReplay.BatchCanMissEnclosed` | src/axiom_encode/corpus_resolver.py:3324-3372 | A concrete text and two offsets for which the batch misses an enclosed marker. |
| `DelimiterReplay.SkippedIffInsideRun` | src/axiom_encode/corpus_resolver.py:3360-3372 | The replay passes over exactly the offsets inside a backtick run. |
| `DelimiterReplay.ReachIsGrounded` | src/axiom_encode/corpus_resolver.py:3168-3192 | In every state a replay reaches, each frame stands for a delimiter at its offset in the text, in text order, and at most 256 are open. |
| `DelimiterReplay.ClosedFrameHasItsOpener` | src/axiom_encode/corpus_resolver.py:3408-3414 | A directional close that matches the top frame finds its own opener there, in every reachable state. |
| `DelimiterReplay.UnmatchedIsUniform` | src/axiom_encode/corpus_resolver.py:3415-3434 | The frames removed by the bulk pop are all frames of the closed pair. |
| `DelimiterIndex.DelimiterIndex.Push` | src/axiom_encode/corpus_resolver.py:3175-3191 | Pushes one frame, keeps the pair counts, closing counts and run lengths equal to a scan of the stack, and fails exactly past depth 256. |
| `DelimiterIndex.DelimiterIndex.PopFrame` | src/axiom_encode/corpus_resolver.py:3192-3207 | Removes the top frame and keeps the three indexes equal to a scan of the stack. |
| `DelimiterIndex.DelimiterIndex.Prepass` | src/axiom_encode/corpus_resolver.py:3125-3165 | The counters equal the number of eligible tokens of the whole text; fails exactly beyond the token limit. |
| `DelimiterIndex.DelimiterIndex.PopUnmatched` | src/axiom_encode/corpus_resolver.py:3415-3434 | The bulk pop removes exactly the unmatched frames of the pair, without underflow. |
| `DelimiterIndex.DelimiterIndex.Turn` | src/axiom_encode/corpus_resolver.py:3339-3502 | One turn with incrementally maintained indexes does the step that is defined by scanning the stack and the unread suffix; `ReadsThrough`, `CrossedIsMalformed` and `QuotationCloses` say what that step does. |
| `DelimiterIndex.DelimiterIndex.Replay` | src/axiom_encode/corpus_resolver.py:3322-3503 | The loop with incremental indexes computes the batch function, which `BatchRefinesReach` ties to the single replay and `EnclosedIffInside` to the nesting of the text. |
| `DelimiterIndex.DelimiterEnclosedMarkerStarts` | src/axiom_encode/corpus_resolver.py:3062-3503 | All input checks, the first pass and the replay give exactly the specified result, errors included; `EnclosedIffInside` says which markers of a well-nested text that are. |
| `DelimiterReading.ReadsThrough` | src/axiom_encode/corpus_resolver.py:3324-3503 | Reading the print of any unmistakable well-nested text (plain and escaped characters, apostrophes, stray brackets, bracket groups, directional and straight quotes, backtick runs) within depth 256 leaves the scan exactly as it was. |
| `DelimiterReading.TooDeepToOpen` | src/axiom_encode/corpus_resolver.py:3168-3173 | With 256 groups open, one more is refused, whatever its delimiter. |
| `DelimiterEnclosure.ReachesPlace` | src/axiom_encode/corpus_resolver.py:3324-3503 | At every piece of a well-nested text the replay holds exactly the frames of the groups around it, with their offsets. |
| `DelimiterEnclosure.EnclosedIffInside` | src/axiom_encode/corpus_resolver.py:3327-3337 | In well-nested text a marker is enclosed iff it stands inside a group, an editorial bracket at the beginning of a line excepted. |
| `DelimiterEnclosure.NotEnclosedAfter` | src/axiom_encode/corpus_resolver.py:3324-3503 | A marker after well-nested text, with no unpaired quotes to come, is not enclosed. |
| `DelimiterEnclosure.CrossedIsMalformed` | src/axiom_encode/corpus_resolver.py:3435-3437 | A token that can only close and matches a frame below the top, but not the top, makes the text malformed and closes nothing. |
| `DelimiterEnclosure.EnclosedAfterCrossing` | src/axiom_encode/corpus_resolver.py:3327-3337 | From a crossed delimiter on, every marker that is reached is enclosed. |
| `DelimiterEnclosure.CrossedBrackets` | src/axiom_encode/corpus_resolver.py:3484-3499 | After two brackets of different kinds that cross, with well-nested text between them, every marker that is reached is enclosed. |
| `DelimiterEnclosure.QuotationCloses` | src/axiom_encode/corpus_resolver.py:3385-3434 | Where every paragraph opens a quotation again, a terminal close ends all its frames but those for which closing quotes are still to come; another close ends one. |
| `DelimiterEnclosure.InternalMarkIsPassed` | src/axiom_encode/corpus_resolver.py:3389-3408 | The last open quote of its sort stays open at an apostrophe or measurement mark, and while more closing than opening quotes follow. |
| `DelimiterEnclosure.InternalStraightIsPassed` | src/axiom_encode/corpus_resolver.py:3453-3475 | The same for straight quotes that can close. |
| `DelimiterEnclosure.UnclearStraightCloses` | src/axiom_encode/corpus_resolver.py:3474-3479 | A straight quote right inside its own kind that can neither open nor close closes it. |
| `DelimiterEnclosure.StrayIsPassed` | src/axiom_encode/corpus_resolver.py:3435-3437 | A token that can only close, of which none is open, changes nothing. |
| `DelimiterEnclosure.OpeningCharacters` | src/axiom_encode/corpus_resolver.py:3445-3447 | The characters after which a straight quote can open, listed. |
| `DelimiterEnclosure.ClosingCharacters` | src/axiom_encode/corpus_resolver.py:3448-3450 | The characters before which a straight quote can close, listed. |
| `Composition.Trie.UncoveredIff` | src/axiom_encode/corpus_resolver.py:1288-1330 | The visit of the trie fails iff some non-repealed leaf has neither a body nor a body-bearing ancestor. |
| `Composition.Trie.ListingIsExact` | src/axiom_encode/corpus_resolver.py:1308-1352 | An accepted trie lists exactly the body-bearing rows without a body-bearing proper ancestor, in canonical order, and never nothing, so the final error is unreachable. |
| `Composition.Trie.ListingIsCanonical` | src/axiom_encode/corpus_resolver.py:1331-1345 | The listing is ordered by the order of siblings at every level of the trie. |
| `Composition.Trie.NoRowTwice` | src/axiom_encode/corpus_resolver.py:1308-1345 | No row is listed twice. |
| `Composition.ComposeIgnoresOrder` | src/axiom_encode/corpus_resolver.py:1214-1368 | The result, including success, depends only on which records there are. |
| `Composition.ComposedRows` | src/axiom_encode/corpus_resolver.py:1346-1368 | The rows of a composed text are exactly the body-bearing records without a body-bearing proper ancestor, each once. |
| `Composition.JoinedHas` | src/axiom_encode/corpus_resolver.py:1346-1368 | In the composed text each row's heading, a blank line and its body stand at the row's offset, two line breaks separate the rows, and nothing follows the last. |
| `Composer.Composer.ContributesCurrentText` | src/axiom_encode/corpus_resolver.py:1288-1306 | The memoised test equals the recursive one and keeps the cache sound. |
| `Composer.Composer.Visit` | src/axiom_encode/corpus_resolver.py:1308-1345 | Appends exactly the listing below the node, or fails iff a leaf below it is uncovered. |
| `Composer.BuildChildren` | src/axiom_encode/corpus_resolver.py:1246-1275 | Builds the child sets of the trie; succeeds iff all paths lie below the parent and the node and prefix-byte limits hold for the whole span. |
| `Composer.ComposeDescendantText` | src/axiom_encode/corpus_resolver.py:1214-1368 | Succeeds exactly on composable records, with the canonical text and rows. |
| `SiblingOrder.SiblingLessIsStrict` | src/axiom_encode/corpus_resolver.py:1371-1387 | The sibling key (legal ordinal, natural parts of the last segment, path) orders paths strictly and totally. |
| `SiblingOrder.TextTellsPaths` | src/axiom_encode/corpus_resolver.py:1371-1387 | Paths without a slash in a component are told apart by their joined text, so the key decides between any two. |
| `SiblingOrder.ComposeInSiblingOrder` | src/axiom_encode/corpus_resolver.py:1214-1387 | Composition in the order of the sibling key gives exactly the specified result. |
| `LegalMarkers.RomanRoundTrip` | src/axiom_encode/corpus_resolver.py:2144-2167 | Evaluating a canonical Roman numeral gives the number it denotes. |
| `LegalMarkers.RomanMarkerToInt` | src/axiom_encode/corpus_resolver.py:2154-2167 | The right-to-left loop computes the specified value, and fails on a foreign symbol or a zero total. |
| `LegalMarkers.RomanOrdinal` | src/axiom_encode/corpus_resolver.py:2122-2151 | A canonical Roman token of either case has the number it denotes as its ordinal. |
| `LegalMarkers.NumericOrdinal` | src/axiom_encode/corpus_resolver.py:2122-2130 | A decimal token has the number it denotes as its ordinal. |
| `LegalMarkers.AssignAdvances` | src/axiom_encode/corpus_resolver.py:2047-2111 | An assigned marker is read in the kind prescribed for its level, opens at most one level, and at an open level strictly advances the ordinal. |
| `LegalMarkers.AssignIsComplete` | src/axiom_encode/corpus_resolver.py:2047-2111 | A marker that could open a child or advance an open level is never left unassigned. |
| `LegalAssignment.AssignIsChosen` | src/axiom_encode/corpus_resolver.py:2047-2111 | A marker is assigned to a level iff it is the one chosen: the child if preferred; below a Roman level the deepest next letter, then the child, then the deepest sibling; elsewhere the deepest sibling, then the child. |
| `LegalAssignment.RegulationKinds` | src/axiom_encode/corpus_resolver.py:2114-2119 | The kinds of the levels of a regulation, written out. |
| `LegalAssignment.StatuteKinds` | src/axiom_encode/corpus_resolver.py:2114-2119 | The kinds of the levels of a statute, written out. |
| `LegalEvidence.IsStructural` | src/axiom_encode/corpus_resolver.py:2299-2397 | The mutually recursive search terminates, and the iterations it made and the work it leaves add up to the work it was given; its answer is `StructuralIff`. |
| `LegalEvidence.SiblingScan` | src/axiom_encode/corpus_resolver.py:2605-2770 | The sibling scan accounts for every iteration, nested ones included; its answer is `SiblingIff`. |
| `EvidenceAnswers.SiblingIff` | src/axiom_encode/corpus_resolver.py:2605-2770 | Over all later markers: the search answers true iff, past markers that settle nothing, it gets to one that affirms (plainly next, or proven and the next of the same level and kind), and false iff it gets to one that denies (proven otherwise, a headed or structural parent, a blocking marker) or to the end. |
| `EvidenceAnswers.StructuralIff` | src/axiom_encode/corpus_resolver.py:2299-2397 | A marker is structural iff no reference cue precedes it and it is strong, has an allowed heading, or, within depth 32 and outside repeated kinds, a sibling is affirmed. |
| `EvidenceAnswers.NextStrongDecides` | src/axiom_encode/corpus_resolver.py:2716-2766 | With work and depth left, a strong next marker that begins a paragraph proves a sibling if it is the next of the same level and kind, and refutes one if it belongs to a higher level. |
| `LegalSlicer.AdvanceKeeps` | src/axiom_encode/corpus_resolver.py:1786-1989 | Every marker keeps the invariant: prescribed kinds and ordinals on the stack, provisional levels open and below 64, accounted work, accepted markers in document order, and everything accepted since the target below it. |
| `LegalSlicer.EveryStateIsKept` | src/axiom_encode/corpus_resolver.py:1749-1989 | The invariant holds in every reachable state: before every marker that the slicer gets to, and where it stops. |
| `LegalSlicer.EveryRunIsKept` | src/axiom_encode/corpus_resolver.py:1749-1989 | The invariant holds where any run of the slicer stops. |
| `LegalSlicer.NoPathTwice` | src/axiom_encode/corpus_resolver.py:1925-1950 | Between two restarts no paragraph is opened twice. |
| `LegalDepth.DepthIsBounded` | src/axiom_encode/corpus_resolver.py:1914-1935 | In every run the stack is no deeper than the retained ancestors plus the markers read, and provisional levels are open and below 64. |
| `LegalDepth.AnyDepthIsReached` | src/axiom_encode/corpus_resolver.py:1776-1950 | For every number up to the marker limit there is a provision of so many markers whose slicing opens that many levels and ends without an error; above the limit it is refused before its first marker is read. |
| `LegalDepth.LimitIsPassed` | src/axiom_encode/corpus_resolver.py:1914-1950 | A provision of 65 nested first paragraphs is read to its end with 65 open levels. |
| `LegalDepth.LimitHoldsIff` | src/axiom_encode/corpus_resolver.py:1914-1950 | Among provisions within the marker limit, those of a given number of markers never end up deeper than 64 iff that number is at most 64. |
| `LegalSlicer.EvidenceExhaustsAtLimit` | src/axiom_encode/corpus_resolver.py:2269-2279 | A slice fails for lack of evidence only after exactly 10,000 sibling-scan iterations over all nested searches. |
| `LegalSlicer.SliceIsTheParagraph` | src/axiom_encode/corpus_resolver.py:1936-1997 | A returned text is one contiguous stretch from the marker accepted with the requested path to the end, or to a marker that ends it; at no earlier marker did the slicer meet an end of the open target, and every other accepted marker inside is a proper descendant of the target. |
| `LegalSlicer.SliceBeginsWithMarker` | src/axiom_encode/corpus_resolver.py:1989-2005 | The returned text begins with the last fragment's marker, with its editorial bracket if there is one. |
| `SlicerFinds.MissingIff` | src/axiom_encode/corpus_resolver.py:1936-1997 | A slice that runs is missing iff it gets through all markers and every marker that it accepted with the requested path had a provisional level open above it. |
| `SlicerFinds.MissingMeans` | src/axiom_encode/corpus_resolver.py:1962-1977 | In a run that ends with nothing found, every marker accepted with the requested path was accepted with a provisional level open above it. |
| `SlicerFails.FailsIff` | src/axiom_encode/corpus_resolver.py:1786-1989 | Each failure at a marker has exactly its cause: exhausted evidence, depth 64 for provisional scope, a backward or blocking unassigned marker after the target, an unassigned or rejected marker before it, an ambiguous advance. |
| `SlicerFails.SliceFailsIff` | src/axiom_encode/corpus_resolver.py:1736-1997 | A slice fails with an error iff there are too many markers, it gets to a marker that causes the error, or it ends with an ambiguous advance. |
| `SlicerFails.RejectedIff` | src/axiom_encode/corpus_resolver.py:1900-1975 | The warning of a rejected target is up iff an earlier marker with the requested path was doubted although strong or headed, or accepted below provisional scope. |
| `SlicerFails.WarnedIff` | src/axiom_encode/corpus_resolver.py:1832-1845 | The warning of an unassigned marker is up iff an earlier strong marker barred the hierarchy and no sure top-level marker has begun anew since. |
| `OutlineSlices.FindsAllIff` | src/axiom_encode/corpus_resolver.py:1736-1997 | In an outline of strong markers with rising numbers, slicing for every paragraph returns its own stretch iff every marker is chosen for the level it is meant for. |
| `TreeSlices.RoundTripIff` | src/axiom_encode/corpus_resolver.py:1736-1997 | Slicing the print of a tree of paragraphs for the path of any paragraph returns exactly the print of that paragraph, editorial bracket included, iff every marker is chosen for the level it has in the tree. |
| `StatuteSlices.StatuteRoundTrip` | src/axiom_encode/corpus_resolver.py:1736-1997 | For statutes of up to three levels whose top-level letters have no gap the round trip holds for every paragraph. |
| `StatuteSlices.LoneClauseIsTaken` | src/axiom_encode/corpus_resolver.py:2008-2026 | A regulation in which a lone clause `(i)` below subsection `(h)` is taken for the next subsection, so that the round trip fails. |
| `LegalSlicerLoop.LegalMarkerIsStructural` | src/axiom_encode/corpus_resolver.py:2299-2397 | With one mutable budget shared by all nested searches, answers and leaves work as specified; the answer is that of `StructuralIff`. |
| `LegalSlicerLoop.HasFollowingStructuralSibling` | src/axiom_encode/corpus_resolver.py:2605-2770 | The scan loop answers and leaves work as specified; the answer is that of `SiblingIff`. |
| `LegalSlicerLoop.SliceUsLegalHierarchy` | src/axiom_encode/corpus_resolver.py:1736-1997 | The marker loop returns the specified slice or error, given which markers are directly structural; what it finds, misses and fails on is said by `RoundTripIff`, `MissingIff` and `SliceFailsIff`. |
| `LegalSlicerText.SliceProvision` | src/axiom_encode/corpus_resolver.py:1745-1997 | The slice of a text with its delimiter replay: early results first, then the replay's errors, then the slice in which enclosed markers are not structural. |
| `LegalSlicerText.OnlyDelimitersStopASlice` | src/axiom_encode/corpus_resolver.py:1781-1784 | Of the replay's errors only too many delimiter tokens and too deep a nesting can stop a slice. |
| `LegalSlicerText.StructuralIffNotEnclosed` | src/axiom_encode/corpus_resolver.py:3024-3040 | A marker is structural for the slicer iff its surroundings are and the replay that watches this marker alone does not find it enclosed. |
| `LegalSlicerText.EnclosedNeedsHeading` | src/axiom_encode/corpus_resolver.py:1898-1935 | In every run an enclosed marker is accepted only as a new level below everything then open, right after a listed heading. |
| `NumericStem.FollowingNumericStemMarker` | src/axiom_encode/corpus_resolver.py:2960-2974 | The pattern it builds matches a text iff the text is a decimal numeral without leading zeros of greater value than the stem, for stems of any length. |
| `NumericStem.PatternIsExact` | src/axiom_encode/corpus_resolver.py:2962-2974 | The same for the canonical digits of the stem. |
| `JsonScan.ScansValue` | cmd/axiom-encode-signing-supervisor/main.go:1835-1870 | Scanning the text of any JSON value consumes exactly that text, never indexes out of bounds, and refuses exactly the trees that are not accepted. |
| `JsonScan.AcceptsIff` | cmd/axiom-encode-signing-supervisor/main.go:1835-1943 | The scan's acceptance of a tree is: no deeper than the limit, and every object at any depth has distinct decoded keys of at most 256 encoded bytes. |
| `JsonScan.FrameScanIsExact` | cmd/axiom-encode-signing-supervisor/main.go:1800-1959 | On every valid JSON text the scan stays in bounds, ends at the end of the text and accepts iff the tree is admissible. |
| `JsonScan.TruncatedObjectPanics` | cmd/axiom-encode-signing-supervisor/main.go:1871-1919 | Without the validity check a truncated object makes the same scan index past its buffer. |
| `JsonKeyScanner.JsonKeyScanner.ScanValue` | cmd/axiom-encode-signing-supervisor/main.go:1835-1870 | The method moves the offset exactly as the scan function says, or fails exactly where it refuses, with all indexing in bounds. |
| `JsonKeyScanner.RejectDuplicateJSONKeys` | cmd/axiom-encode-apply-signer/wire.go:210-223 | Accepts exactly the valid texts whose tree is admissible. |
| `SigningWire.MessageIsInjective` | cmd/axiom-encode-apply-signer/wire.go:28-40 | Domain, scope, NUL and body determine operation, scope and body, for scopes without NUL. |
| `SigningServer.EverySignatureIsAudited` | cmd/axiom-encode-apply-signer/serve.go:171-272 | Over every connection, whoever sends what: after every prefix the audit lists exactly the sign signatures that went out, one to one and in order, with strictly increasing IDs. |
| `SigningServer.EverySignatureAnswersItsRequest` | cmd/axiom-encode-apply-signer/serve.go:197-272 | Over every connection a signature is the served key's over the message of the very request it answers, and only for the served scope. |
| `SigningService.ServesIff` | cmd/axiom-encode-apply-signer/serve.go:197-272 | Over every connection the signer answers with a signature iff the request is well formed, its ID exceeds those of all earlier well-formed requests, its scope is the served one and it has exactly the fields of `sign` or `challenge`; the signature covers that field. |
| `SigningServer.SignerServer.HandleRequest` | cmd/axiom-encode-apply-signer/serve.go:197-272 | The server object changes `lastID`, `signed` and its audit and replies as specified. |
| `SigningClient.ConnectPairs` | cmd/axiom-encode-signing-supervisor/main.go:1419-1485 | The challenge, if its frame fits, succeeds exactly with a fresh signer of the expected scope and key, and leaves its last ID one below the next ID. |
| `SigningClient.SignSucceedsIff` | cmd/axiom-encode-signing-supervisor/main.go:1487-1542 | In step, a sign succeeds iff the payload is nonempty, its frame fits and IDs remain; the signature covers it, it is audited with that ID, and the two stay in step. |
| `SigningBroker.RunStaysInStep` | cmd/axiom-encode-signing-supervisor/main.go:1638-1722 | Over every run both signers stay in step with the broker and their audits and IDs only grow. |
| `SigningBroker.RunReply` | cmd/axiom-encode-signing-supervisor/main.go:1638-1722 | In every run a signature reply answers a well-formed fresh request and covers its payload under the scope of its operation and the provisioned key; a well-formed sign is refused exactly when its payload is empty, its frame too large or the IDs used up. |
| `SigningBroker.AcceptedIDsIncrease` | cmd/axiom-encode-signing-supervisor/main.go:252-267 | Accepted client IDs strictly increase over a run, from whatever state and with whatever signer processes. |
| `SigningBroker.ScopesAreApart` | cmd/axiom-encode-apply-signer/wire.go:34-40 | A signed apply message is no message of another scope and no challenge. |
| `SigningExposure.HonestRunIsExposed` | cmd/axiom-encode-signing-supervisor/main.go:1638-1722 | Over every run the broker with signer processes is the broker whose signers answer anything, given their answers: it stops at the same request, in the same state, with the same replies. |
| `SigningExposure.EveryAttestedReplyIsVerified` | cmd/axiom-encode-signing-supervisor/main.go:1512-1542 | In every run, whatever the signers answer, a signature handed on is that of the key provisioned at the start over that request's payload and that signer's scope. |
| `SigningExposure.AttestedIDsIncrease` | cmd/axiom-encode-signing-supervisor/main.go:252-267 | In every run, whatever the signers answer, the IDs of handed-on signatures strictly increase. |
| `SigningBroker.ConnectExternalSigner` | cmd/axiom-encode-signing-supervisor/main.go:1419-1485 | Connecting the processes does what the specification says, or yields no signer. |
| `SigningBroker.ExternalSigner.SignPayload` | cmd/axiom-encode-signing-supervisor/main.go:1487-1542 | Spends one ID and returns the specified outcome, with a `SignerServer` as its peer. |
| `SigningBroker.BrokerProcess.Serve` | cmd/axiom-encode-signing-supervisor/main.go:1638-1722 | The request loop gives exactly the specified replies and final state; `RunIsRouted` says which signer answers which name. |
| `SigningRouting.RunIsRouted` | cmd/axiom-encode-signing-supervisor/main.go:1638-1722 | Over every run, by literal name: `apply_ed25519_sign` is answered by the apply signer connected at the start over the apply scope, `eval_ed25519_sign` by the eval signer over the eval scope, `status` and `shutdown` by neither, and every other request is refused. |
| `SigningRouting.ExposedRunIsRouted` | cmd/axiom-encode-signing-supervisor/main.go:1638-1722 | The same names decide the key and scope of every signature handed on when the signers answer anything; no other operation is attested. |
| `ConceptFormula.FormulaSegments` | src/axiom_encode/legacy_exact_dependent_concepts.py:65-97 | The index loop computes the segmentation, which `PrintedSegments` describes on every formula. |
| `ConceptFormula.TokensSpell` | src/axiom_encode/legacy_exact_dependent_concepts.py:65-97 | The tokens of the segments spell the formula they come from: nothing is lost. |
| `ConceptPrint.PrintedSegments` | src/axiom_encode/legacy_exact_dependent_concepts.py:65-97 | A formula printed from quote-free, single-quoted and double-quoted pieces, with escapes, doubled quotes and possibly an unclosed last piece, has exactly these pieces as its segments. |
| `ConceptPrint.EveryFormulaIsPrinted` | src/axiom_encode/legacy_exact_dependent_concepts.py:65-97 | Every text is the print of such pieces. |
| `ConceptPrint.PrintedRenaming` | src/axiom_encode/legacy_exact_dependent_concepts.py:386-394 | Renaming in a printed formula substitutes in its quote-free pieces and prints every quoted piece as it was. |
| `ConceptPrint.PrintedMention` | src/axiom_encode/legacy_exact_dependent_concepts.py:100-110 | A printed formula mentions a concept iff one of its quote-free pieces does. |
| `ConceptPrint.IdentifierCharacters` | src/axiom_encode/legacy_exact_dependent_concepts.py:18-18 | The identifier characters by code point. |
| `ConceptRenaming.RenamingKeepsSegments` | src/axiom_encode/legacy_exact_dependent_concepts.py:386-394 | The segments of the renamed formula are the renamed segments; quoted ones are unchanged. |
| `ConceptRenaming.RenamingIsTokenwise` | src/axiom_encode/legacy_exact_dependent_concepts.py:386-394 | The pattern substitution renames exactly the unquoted words equal to the old name. |
| `ConceptRenaming.MentionIsWord` | src/axiom_encode/legacy_exact_dependent_concepts.py:100-110 | A formula mentions a concept iff the concept is one of its unquoted words. |
| `ConceptRenaming.RenamingIsComplete` | src/axiom_encode/legacy_exact_dependent_concepts.py:386-394 | Renaming leaves no mention of the old name. |
| `ConceptRenaming.RenamingIsUndone` | src/axiom_encode/legacy_exact_dependent_concepts.py:386-394 | The reverse renaming restores the formula iff the new name was not mentioned. |
| `ConceptRenaming.ReplaceAllIsSimultaneous` | src/axiom_encode/legacy_exact_dependent_concepts.py:397-421 | Sequential renaming, in whatever order, equals one simultaneous substitution. |
| `ConceptRenaming.ReplaceAllIgnoresOrder` | src/axiom_encode/legacy_exact_dependent_concepts.py:419-421 | Any two iteration orders give the same formula. |
| `ConceptRenaming.ReplacingKeepsMeaning` | src/axiom_encode/legacy_exact_dependent_concepts.py:386-421 | Without a mention of a new name, the rewritten formula means the same wherever new names have the values of the old ones. |
| `ConceptRenaming.NewNameIsCaptured` | src/axiom_encode/legacy_exact_dependent_concepts.py:386-421 | With such a mention, some values make the meanings differ. |
| `ConceptParameters.ActiveParameterValue` | src/axiom_encode/legacy_exact_dependent_concepts.py:214-221 | The loop returns the active value. |
| `ConceptParameters.ActiveIsLastCovering` | src/axiom_encode/legacy_exact_dependent_concepts.py:214-221 | The active value is that of the last version that covers the date. |
| `ConceptParameters.ParametersEqualOverWindows` | src/axiom_encode/legacy_exact_dependent_concepts.py:224-244 | Returns true iff the parameters agree, with values, at all probes of all windows. |
| `ConceptParameters.ProbesAreExact` | src/axiom_encode/legacy_exact_dependent_concepts.py:224-244 | On a window that is not inverted, agreement at the probes is agreement on every date. |
| `ConceptDerivation.DependentUseWindows` | src/axiom_encode/legacy_exact_dependent_concepts.py:113-153 | The nested loops collect the use windows, or fail on an unreadable or inverted one. |
| `ConceptDerivation.WindowsAreUses` | src/axiom_encode/legacy_exact_dependent_concepts.py:113-153 | Agreement on the collected windows is agreement on every date on which some version uses the concept. |
| `ConceptDerivation.ParameterVersions` | src/axiom_encode/legacy_exact_dependent_concepts.py:156-211 | Parses a scalar parameter's versions, or tells why not, in the order of the checks. |
| `ConceptDerivation.FindCandidates` | src/axiom_encode/legacy_exact_dependent_concepts.py:324-335 | Collects exactly the destination parameters of the same surface that agree on every use date. |
| `ConceptDerivation.RenamingIsJustified` | src/axiom_encode/legacy_exact_dependent_concepts.py:298-363 | A chosen successor has the same surface, agrees with a value on every use date, is the only such name, and is not the name of any import. |
| `ConceptRewrite.DeriveReplacements` | src/axiom_encode/legacy_exact_dependent_concepts.py:256-363 | The loops over modules and imports give the specified derivation or fail. |
| `ConceptSuccess.ParsedIff` | src/axiom_encode/legacy_exact_dependent_concepts.py:156-211 | A parameter is read iff it is scalar, nonempty, every version has a literal, a date and no end, and the dates are in order; an end date is the reason of refusal iff it is the first flaw. |
| `ConceptSuccess.RenamesIff` | src/axiom_encode/legacy_exact_dependent_concepts.py:298-363 | An import is renamed iff it is the only one of its name and unused by the dependent's rules, the destination lacks the old name, all uses are dated, no parameter of the same surface has an end date, exactly one rule there is equivalent in use, and its name is not imported. |
| `ConceptSuccess.LeftAloneIff` | src/axiom_encode/legacy_exact_dependent_concepts.py:295-312 | An import is left alone iff it is of another module or the destination still has its parameter. |
| `ConceptSuccess.DerivationIff` | src/axiom_encode/legacy_exact_dependent_concepts.py:256-363 | The derivation succeeds iff names are unique, no import is refused and no two renamings share an old or a new name; it then takes exactly each import to its target and each old name to its new one. |
| `ConceptRewrite.DerivedIsSound` | src/axiom_encode/legacy_exact_dependent_concepts.py:281-363 | The derived bare map is injective and no new name is an old one. |
| `ConceptRewrite.DerivedRewriteKeepsMeaning` | src/axiom_encode/legacy_exact_dependent_concepts.py:256-421 | Rewriting with the derived map keeps a formula's meaning on every date of its period unless it already used a new name. |
| `ConceptCapture.DerivedRewriteCaptures` | src/axiom_encode/legacy_exact_dependent_concepts.py:256-421 | With the retained modules read as they are, a formula that already uses a new name changes its meaning for some values of its own names. |
| `ConceptCapture.DerivedRewriteIsExact` | src/axiom_encode/legacy_exact_dependent_concepts.py:256-421 | On each date of its period a formula keeps its meaning for all values of its own names iff it uses none of the new names. |
| `ConceptCapture.DerivationCanCapture` | src/axiom_encode/legacy_exact_dependent_concepts.py:305-363 | A dependent with a rule of the successor's name and a formula using both, whose accepted derivation changes that formula's meaning. |
| `ConceptRewrite.ExpectedPrimaryPayload` | src/axiom_encode/legacy_exact_dependent_concepts.py:397-421 | Exactly the full references in imports and proof atoms and the bare names in formulas and proof atoms change. |
| `SignedQueue.ValidateQueue` | scripts/prepare_signed_queue.py:763-1022 | The loop with seen sets and counters accepts exactly the valid queues of the profile. |
| `QueueTransitions.PauseQueue` | scripts/prepare_signed_queue.py:2356-2379 | Returns the specified suspended queue or fails. |
| `QueueTransitions.PauseSucceeds` | scripts/prepare_signed_queue.py:2356-2379 | Pausing a valid active queue fails only for a blank reason or a malformed digest. |
| `QueueTransitions.PausePassesGate` | scripts/prepare_signed_queue.py:1575-1584 | Pausing with the digest of the active file passes the gate. |
| `QueueTransitions.RecordDisposition` | scripts/prepare_signed_queue.py:2322-2353 | Changes exactly one item as specified or fails. |
| `QueueDispositions.RecordIs` | scripts/prepare_signed_queue.py:2322-2353 | A disposition succeeds iff the queue is valid, the status is one of three, the item exists and a block has a comment URL of the issue and a note; a retry starts the next attempt, a block keeps it, and nothing else changes. |
| `QueueTransitions.RecordPassesGate` | scripts/prepare_signed_queue.py:1532-1573 | On a paused queue a recorded disposition passes the gate iff the item was not terminal or nothing changed. |
| `QueueTransitions.VerifyPausedTransition` | scripts/prepare_signed_queue.py:1468-1584 | The check with dictionaries by id accepts exactly the gate. |
| `QueueTransitions.GateAligns` | scripts/prepare_signed_queue.py:1532-1573 | The gate, which matches items by id, keeps their number and order. |
| `QueueHistory.ReconcileCandidates` | scripts/prepare_signed_queue.py:1718-1907 | Each candidate gets the specified decision. |
| `QueueHistory.DispatchableIff` | scripts/prepare_signed_queue.py:1736-1902 | An item is dispatchable iff no pull request and no run in the history has its generation. |
| `QueueFinalization.ReasonTable` | scripts/prepare_signed_queue.py:1736-1902 | Which of the reasons applies, for each in terms of the pull requests and runs of the generation: merged, untrusted merge, open, closed, active, successful, failed or new. |
| `QueueHistory.MergeIsBacked` | scripts/prepare_signed_queue.py:1769-1803 | A merge counts only with a merged pull request and a trusted successful run of this very generation. |
| `QueueHistory.TagsAgree` | scripts/prepare_signed_queue.py:1048-1068 | The generation digest determines everything that identifies the item in the history. |
| `QueueHistory.NoGenerationTwice` | scripts/prepare_signed_queue.py:1864-1902 | If runs never disappear and each dispatch leaves its run, no generation is dispatched twice. |
| `QueueRuns.FinalizeAndRepin` | scripts/prepare_signed_queue.py:2078-2319 | Returns the specified activated queue or fails; `FinalizeIs` and `FinalizeSucceedsIff` say which and when. |
| `QueueFinalization.FinalizeIs` | scripts/prepare_signed_queue.py:2078-2319 | Finalization yields exactly the queue in which every item is settled as the history allows: completed items that still stand and untouched ones unchanged, proven merges completed with the evidence of the first proven merge, with the new base and activation record. |
| `QueueFinalization.FinalizeSucceedsIff` | scripts/prepare_signed_queue.py:2180-2319 | Given the request, advance and quiet checks, finalization succeeds iff every completed item stands, every selectable item has no pull request and no run of its generation or a first proven merge with target evidence, and the result is valid. |
| `QueueRuns.CompletionIsBacked` | scripts/prepare_signed_queue.py:2265-2301 | An item is completed only on a merged pull request and trusted run of its generation whose merge commit the new base contains. |
| `QueueRuns.StepKeepsPins` | scripts/prepare_signed_queue.py:1490-1531 | After the first activation an accepted transition keeps every pin but the RuleSpec base, which moves only by activation to a proper descendant. |
| `QueueRuns.StepKeepsItems` | scripts/prepare_signed_queue.py:1532-1573 | An accepted transition keeps item identity and order and terminal items, raises attempts by at most one, and completes only by finalization with the generation digest from before. |
| `QueueRuns.PinsAreFixed` | scripts/prepare_signed_queue.py:2303-2317 | Over every run, from the first activation on, release, corpus ref and engine ref never change and the RuleSpec base only moves forward. |
| `QueueRuns.GenerationsOfEpochsDiffer` | scripts/prepare_signed_queue.py:1048-1068 | Generations of different activation epochs never coincide. |
| `QueueRuns.ItemsAreFixed` | scripts/prepare_signed_queue.py:1532-1573 | Over every run items keep identity and order, terminal items never change, attempts never fall. |
| `QueueDispositions.HeaderIsFixed` | scripts/prepare_signed_queue.py:1482-1490 | Over every run the header, the superseded queue and the inventory never change. |
| `QueueDispositions.PinsChangeTogether` | scripts/prepare_signed_queue.py:1490-1531 | Pins other than the RuleSpec base change only on a queue that was never active with all items pending at their first attempt, and then all refs and the release change. |
| `QueueRuns.CompletedByFinalization` | scripts/prepare_signed_queue.py:2244-2301 | An item completed during a run was completed by one finalization, with its generation digest just before it. |
| `OverlayTree.FloorsAreProtected` | src/axiom_encode/legacy_replacement_overlay.py:275-288 | No floor of any path, nor the root, is a candidate for pruning. |
| `OverlayTree.PruningIsExact` | src/axiom_encode/legacy_replacement_overlay.py:324-344 | Deepest-first pruning removes exactly the candidates whose whole subtree consists of candidate directories. |
| `OverlayStaging.PostimageIsExact` | src/axiom_encode/legacy_replacement_overlay.py:524-548 | The staged tree path by path: writes present, other unlinked files gone, emptied candidate directories gone, all else as before; `StagedEntries` says which these are. |
| `OverlayFields.StagedEntries` | src/axiom_encode/legacy_replacement_overlay.py:524-548 | In the contract's own fields: every rewrite, every dependent's live file and every metadata file is staged with exactly its content; every deleted file, retained legacy file, predecessor and manifest is gone; other files are as before and nothing is new. |
| `OverlayFields.CheckAuthenticates` | src/axiom_encode/legacy_replacement_overlay.py:369-523 | A contract that passes names only regular files of the digests it gives, and writes only content of the digests it gives. |
| `OverlayFields.ModuleRootsStay` | src/axiom_encode/legacy_replacement_overlay.py:275-288 | The root directories of modules and of their manifests are never removed. |
| `OverlayStaging.WrittenContent` | src/axiom_encode/legacy_replacement_overlay.py:533-538 | With distinct write targets each written file has its own content. |
| `OverlayStaging.OthersStay` | src/axiom_encode/legacy_replacement_overlay.py:275-344 | Floors and directories that are not candidates stay. |
| `OverlayStaging.ManifestMayBeDeletedTwice` | src/axiom_encode/legacy_replacement_overlay.py:369-381 | A contract that passes every check and unlinks one file twice. |
| `OverlayStaging.FloorMayBeRetired` | src/axiom_encode/legacy_replacement_overlay.py:305-318 | A contract that passes every check, whose one retired file is its own prune floor; unlinking it changes the tree. |
| `OverlayStaging.Checkout.Prune` | src/axiom_encode/legacy_replacement_overlay.py:291-344 | Leaves exactly the pruned tree, and fails without removing anything iff a target is its own floor. |
| `OverlayStaging.Checkout.Stage` | src/axiom_encode/legacy_replacement_overlay.py:347-548 | A failed check leaves the tree unchanged; otherwise it completes iff unlink targets are distinct and below their floors, with exactly the staged tree; at a repeated unlink just the files named before the first repetition are gone, and a floor failure leaves all files unlinked and written. |
| `ReleaseInventory.EachArtifactHasOneScope` | src/axiom_encode/corpus_release.py:444-482 | In an accepted release each artifact belongs to exactly one scope. |
| `ReleaseInventory.PathsWrittenOut` | src/axiom_encode/corpus_release.py:450-470 | The required paths of a scope and the root of its sources, written out. |
| `ReleaseInventory.EachScopeHasOneProjection` | src/axiom_encode/corpus_release.py:560-596 | In an accepted release each scope has exactly one projection row, with its row counts and digests. |
| `ReleaseResolver.ValidateScopes` | src/axiom_encode/corpus_release.py:289-330 | The loop accepts exactly pairwise different scopes with well-formed components, a known document class, matching row counts and projection digests. |
| `ReleaseResolver.ValidateArtifacts` | src/axiom_encode/corpus_release.py:355-397 | The loop accepts exactly artifacts with safe paths below their class root, digests, content-addressed keys, the release's bucket and row counts, in strict order of path. |
| `ReleaseResolver.ValidateMembership` | src/axiom_encode/corpus_release.py:444-482 | The claim set covers all paths iff every scope is complete and every artifact owned. |
| `ReleaseResolver.ValidateProjections` | src/axiom_encode/corpus_release.py:560-596 | The loop accepts exactly one row per named scope, with the scope's row counts and digests as expected and as found. |
| `ReleaseResolver.CandidateProvisionFiles` | src/axiom_encode/corpus_resolver.py:935-975 | Returns the selected files, or the first selected file that is missing, or the wrong-count error exactly if the count is wrong. |
| `ReleaseResolver.CountIsAlwaysRight` | src/axiom_encode/corpus_resolver.py:942-975 | In an accepted release the selected provisions files are exactly those of the scopes asked for, so the count check never fails. |
| `ReleaseResolver.SelectionSucceeds` | src/axiom_encode/corpus_resolver.py:942-975 | With the selected files present, an accepted release always yields exactly one file per wanted scope. |

## Left out

- Regular-expression text tests of the resolver (heading allowlists, reference cues, apostrophe and measurement evidence, strong boundaries): uninterpreted functions of marker and context.
- LegalSlicerLoop.SliceUsLegalHierarchy: takes which markers are directly structural as given; `LegalSlicerText.SliceProvision` adds the delimiter replay and its errors.
- SigningBroker.ExternalSigner.SignPayload: its peer process is a `SignerServer`; arbitrary answers are covered by `SigningExposure`.
- The markers of a provision as a regular-expression search finds them: an input, constrained to be ordered, non-overlapping and to spell their tokens.
- Choosing ancestor parse options, parenthetical fragments without a hierarchy and the alphabetic sibling patterns (`src/axiom_encode/corpus_resolver.py:1535-1735`, `2793-2950`, `2977-3060`).
- Composition.Compose: path segments are sequences of strings, and the different error messages are one failure. The legal fragments of a path and case folding are inputs of the sibling key.
- Ed25519, SHA-256, base64 and JSON decoding: ideal signatures, injective digests, and decoded requests with the set of fields that were present; JSON validity is the grammar predicate.
- Sockets, descriptors, deadlines, process hardening, exec, environment scrubbing, credential copying, zeroing of buffers.
- The initialization message of the broker and its check that all configured keys differ (`cmd/axiom-encode-signing-supervisor/main.go:216-250`); the model starts from connected signers.
- A client frame that does not decode ends the broker like the end of its input; it is modelled as the end of the script.
- YAML loading and the test mapping keys of a concept rewrite; a dependent without any imports section, for which the source returns no replacements before checking anything.
- ConceptDerivation.DependentUseWindows: windows are collected in order and with repetition, which the conjunction over them does not see; the source sorts and deduplicates them.
- SignedQueue.ValidateQueue: URL, digest, identifier and header patterns are predicates of an abstract profile; the total item count is implied by the counts of the jurisdictions.
- QueueRuns.FinalizeAndRepin: the verification of one target's evidence, check-run evidence and the git checkout are inputs of the finalizer; so are the digests of the evidence it records.
- Building a queue, selecting a tranche, dispatch workflows, the activation and merge authorization checks.
- QueueHistory.ReconcileCandidates: "newest first" is an arbitrary rearrangement of the matching entries.
- Symbolic links above an overlay path and file system errors other than those of a missing or non-empty target; scoping an overlay before staging.
- Orchestration scripts, cost summaries, retry feedback, exports and manifest checks: field by field, nothing to prove.
