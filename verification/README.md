# Verification

Dafny proofs about the control logic of this repository: the encoders and serialisers behind its
evidence, the bounded worktree, the readback comparators and the apply protocol, and the state
machines that reconcile labels, append evidence and simulate demo journeys.

`dafny verify dfyconfig.toml` checks everything. One module models one source component:

- `recording_lzw`, `recording_raster`, `recording_gif` (with `bits`): the GIF89a writer of the
  walkthrough recording, against a decoder written from Appendix F and sections 15, 16, 18-20, 22,
  23 and 27 of GIF89a.
- `canonical`, `canonical_proofs`, `canonical_shortest` (with `text`, `ordering`): canonical JSON, against a
  reader for RFC 8259 sections 4-7, and as the shortest text that reader takes for its meaning.
- `glob`, `repository_path`, `git_listing`, `bounded_worktree`, `bounded_authority`: scopes, paths, the names
  Git prints, target authorisation, the write loop, what a result tells and a grant allows.
- `directory_tree`, `directory_records`, `shell_quote`: the directory serialiser and the POSIX quoter of the runtime probe.
- `keyed_lists`: duplicate keys, lookup Maps, and matching two lists key by key.
- `administrator_plan`, `administrator_readback`: the configuration plan and its comparator.
- `administrator_catalogue`, `administrator_handoff_plan`, `administrator_handoff`: the control catalogue, the
  handoff plan and the handoff comparator.
- `administrator_state`, `administrator_apply`, `administrator_operations`: the plan, confirm, read, attempt,
  read-back protocol, and which controls it can carry.
- `app_registration`: least-privilege union, plan validator and permission comparator.
- `issue_taxonomy`, `taxonomy_repository`, `taxonomy_reconciler`, `taxonomy_run`, `taxonomy_outcome`: the label
  reconciler, against an arbitrary and against an honest repository, and what a run means label by label.
- `demo_journey`, `demo_stores`: receipts, fences and budget of a simulated journey; its stores.
- `evidence_log`: the compare-and-append log and the effect port.
- `authorization`, `freshness`: human gates and observation windows.

Digests are functions passed in; where a result needs it, collision-freedom is a stated
hypothesis. So are the facts about JavaScript's case mapping, string order and number text that a
proof uses. Times are integers. Documents are taken to satisfy their schemas.

## Findings

Each of these is a lemma below, with the exact condition under which the promise holds.

- A change to a path with a space, a double quote or a character outside printable ASCII can pass the grant, the
  patch check and the write loop, and then the run always fails: `git status --short` prints such a
  name in quotes, and the check compares the printed text with the path. A run needs plain names
  exactly (`GitListing.StatusNameExactly`, `BoundedWorktree.ListingExactly`, `NameDecides`, with the input
  `d/a b` in `SpacedNameRefused`).
- An evidence head can be consumed more than once. Over any run, each head is consumed at most once if and
  only if no accepted request that another one follows resubmits a record the log already holds, from the
  one behind the run's first head on (`EvidenceLog.NewRecordsExactly`, `HeadsConsumedOnceExactly`). Repeating
  the last record keeps the head in place (`RepeatedRecordReplaysHead`); two records in turn bring it back
  (`HeadComesBack`).
- The glob rewrite is right exactly for scopes without NUL (`Glob.RewriteCorrectExactly`).
- A path with one trailing slash is accepted as canonical (`RepositoryPath.CanonicalExactly`); writing
  it is refused, for a new file only after it has been written (`BoundedWorktree.Worktree.ApplyChange`).
- An approval still counts at the very instant it expires (src/freshness.ts:72), so the apply
  protocol guarantees a post-read no later than the expiry, not before it
  (`AdministratorApply.CompleteTrace`).

Four more functions meet their promise only on part of their domain; the rest is kept from them
elsewhere.

- planAdministratorConfiguration returns a plan that lists an excluded ref twice, and no readback can then
  match it (`AdministratorReadback.DuplicatedExclusionUnmatchable`, `MatchableExactly`). The function does not
  consult the schema, which forbids the repetition (schemas/v1alpha1/administrator-plan.schema.json:201).
- A registration plan validates although its manifest asks for a permission it denies, and no readback then
  passes (`AppRegistration.MatchableExactly`, `DenyingManifestUnmatchable`). The reviewed manifest asks for none,
  so every plan for it can be matched (`ReviewedPlansMatchable`).
- The literal LZW stream decodes to the pixels exactly when they stay below 4 (`RecordingLzw.LiteralLzw`);
  the raster draws only such colours.
- A label colour that is not upper-case would fail every run of the reconciler
  (`TaxonomyRun.ColourConfirmable`); the schema admits only upper-case ones
  (schemas/v1alpha1/issue-taxonomy.schema.json:158).

## Model

| member | source | states |
|---|---|---|
| RecordingLzw.LiteralLzw | src/authority-walkthrough-recording.ts:105-128 | For every pixel array, a full GIF89a Appendix F decoder (growing table, variable code width, minimum code size 2) run on the result returns exactly the pixels if and only if all pixels are below 4; the bytes then carry the codes bit by bit, zero-filled |
| RecordingLzw.CollectCodes | src/authority-walkthrough-recording.ts:108-113 | The loop by twos yields a clear code before every two pixels and one end code |
| RecordingLzw.CodeAt | src/authority-walkthrough-recording.ts:108-112 | Codes 3k is a clear code and the pixels stand behind it two by two, in order |
| RecordingLzw.PackCodes | src/authority-walkthrough-recording.ts:114-127 | Packing loses no bit: unpacking the bytes gives the three-bit codes in order and then fewer than eight zeros; the accumulator stays below 15 bits |
| RecordingLzw.PackedBits | src/authority-walkthrough-recording.ts:114-127 | Bit b of code i is bit 3i + b of the bytes, least significant first, and the less than eight bits behind the last code are zero |
| RecordingLzw.PackedDecodes | src/authority-walkthrough-recording.ts:105-128 | Decoding a packed image succeeds exactly within the four colours |
| RecordingLzw.StreamDecodes | src/authority-walkthrough-recording.ts:109-113 | The code stream decodes to the pixels from whatever table an earlier pair left behind and under any padding |
| RecordingLzw.PairKeepsWidth | src/authority-walkthrough-recording.ts:109-112 | After a clear code, two literal pixels leave the decoder at a width of three bits |
| RecordingLzw.ThirdPixelWidens | src/authority-walkthrough-recording.ts:109-112 | A third pixel without a clear code would widen the next code to four bits, so none of the clear codes can be spared |
| RecordingLzw.DecodedColoursInPalette | src/authority-walkthrough-recording.ts:105-128 | The decoder never emits a colour outside the palette of its minimum code size |
| RecordingRaster.RenderLines | src/authority-walkthrough-recording.ts:71-103 | The in-place raster succeeds exactly when every upper-cased line fits the width and has glyphs, and otherwise reports what is wrong with the first line that cannot be drawn; it writes only inside the buffer and equals the closed-form canvas |
| RecordingRaster.DrawLine | src/authority-walkthrough-recording.ts:83-101 | One line changes exactly the lit pixels of its characters to its colour and nothing else |
| RecordingRaster.DrawGlyph | src/authority-walkthrough-recording.ts:86-99 | One glyph changes exactly the scaled dots its bitmap lights |
| RecordingRaster.FillDot | src/authority-walkthrough-recording.ts:93-97 | One dot changes exactly its SCALE by SCALE square |
| RecordingRaster.CellsDisjoint | src/authority-walkthrough-recording.ts:89-92 | No pixel belongs to the glyph cells of two different characters or lines |
| RecordingRaster.PixelInLine | src/authority-walkthrough-recording.ts:75-92 | Inside the rows of line i the frame shows exactly that line, outside them that line lights nothing |
| RecordingRaster.BuiltInFont | src/authority-walkthrough-recording.ts:17-65 | Every built-in glyph is seven rows of five, so the font meets the raster's precondition, and it has the fallback glyph |
| RecordingRaster.Utf16OfOne | src/authority-walkthrough-recording.ts:79 | A character of the Basic Multilingual Plane counts once, any other twice |
| RecordingGif.RenderAuthorityBoundaryGif | src/authority-walkthrough-recording.ts:154-216 | Produced exactly when the total height is at most 480 and all lines can be drawn, otherwise refused for the first thing wrong. A reader following GIF89a sections 15, 16, 18-20, 22, 23 and 27 recovers the screen, the four palette colours and one frame per group, stacked, 0.4 s each and 1.5 s for the last; a pixel is background exactly outside the set dots of the glyphs, and inside red exactly on a line that says REFUSED, otherwise green exactly on a headline that tells of an outcome, otherwise white. The bytes are the opening, one chunk per group and the trailer |
| RecordingGif.RecordingShown | src/authority-walkthrough-recording.ts:154-216 | The closed form of the frames shows every line at its place, dot by dot, in the colour its words call for |
| RecordingGif.CanvasShows | src/authority-walkthrough-recording.ts:75-101 | A pixel of a frame is lit exactly where some set dot of some character covers it, and has the colour of that line |
| RecordingGif.FrameColourShows | src/authority-walkthrough-recording.ts:141-152 | Red if and only if the line says REFUSED; otherwise green if and only if it is the first and says APPLIED or HUMAN_REVIEW or begins with HYPERFINITE |
| RecordingGif.ContainsExactly | src/authority-walkthrough-recording.ts:142-148 | The search finds a word exactly when it stands somewhere in the line |
| RecordingGif.OpeningBytes | src/authority-walkthrough-recording.ts:165-184 | Signature, screen size, flags and palette byte by byte |
| RecordingGif.PreambleBytes | src/authority-walkthrough-recording.ts:196-209 | Graphic control extension and image descriptor byte by byte |
| RecordingGif.BuiltInDraws | src/authority-walkthrough-recording.ts:77-85 | With the built-in font a group can be drawn exactly when no upper-cased line is longer than 52 code units |
| RecordingGif.RenderFrames | src/authority-walkthrough-recording.ts:185-213 | The body written by the loop reads as the frames so far, whatever bytes follow |
| RecordingGif.RenderFrame | src/authority-walkthrough-recording.ts:186-211 | One group becomes a graphic control, an image descriptor and image data that carry its canvas |
| RecordingGif.ImageData | src/authority-walkthrough-recording.ts:130-139 | Image data reads back as the pixels: minimum code size, sub-blocks of 1 to 255 bytes, one terminator |
| RecordingGif.SubBlocksRead | src/authority-walkthrough-recording.ts:132-137 | Any byte string cut into sub-blocks is read back whole, with what follows left over |
| RecordingGif.SubBlockAt | src/authority-walkthrough-recording.ts:132-137 | Sub-block q starts at 256q with its size, 255 for all but the last, and holds bytes 255q and on |
| RecordingGif.WordAt | src/authority-walkthrough-recording.ts:67-69 | A 16-bit field anywhere in the stream decodes to the value encoded |
| RecordingGif.FrameAt | src/authority-walkthrough-recording.ts:186-213 | Frame i of the recording is the frame of group i |
| RecordingGif.TotalHeight | src/authority-walkthrough-recording.ts:158-161 | The reduction yields the top of the frame after the last |
| RecordingGif.TopAddsUp | src/authority-walkthrough-recording.ts:158-161 | Frame tops add up to 18 rows per line and 16 per frame before |
| RecordingGif.FramesDisjoint | src/authority-walkthrough-recording.ts:185-212 | No row of the logical screen lies in two frames |
| RecordingGif.FramesCover | src/authority-walkthrough-recording.ts:158-212 | Every row of the logical screen lies in some frame |
| CanonicalProofs.Unambiguous | src/canonical.ts:8-44 | Two values have the same canonical text exactly when they are equal as maps, arrays and scalars |
| CanonicalProofs.RoundTrip | src/canonical.ts:8-44 | Reading canonical text by RFC 8259 gives back the normal form of the value member by member in its order, and so what the value means |
| CanonicalShortest.CanonicalExactly | src/canonical.ts:8-44 | Of all texts exactly one is the canonical text of a value: JSON with its meaning, keys of every object in order, no unpaired surrogate, lower-case escapes, and no well-formed text with that meaning shorter |
| CanonicalShortest.CanonicalIsShortest | src/canonical.ts:42-44 | No well-formed text that RFC 8259 reads as the same meaning is shorter than the canonical text |
| CanonicalShortest.EscapeShortest | src/canonical.ts:42-44 | No well-formed text reads as a string in fewer characters than it is written in; one as short with lower-case escapes is the one written |
| CanonicalShortest.CoversText | src/canonical.ts:42-44 | Any text takes at least the characters printed for the tree it reads as, and is that print when it takes no more |
| CanonicalShortest.ShortestForm | src/canonical.ts:27-37 | Of all values with one meaning those without repeated keys print shortest |
| CanonicalShortest.InOrderUnique | src/canonical.ts:27-37 | A value is determined by its meaning once the keys of its objects are in order |
| CanonicalShortest.NormalInOrder | src/canonical.ts:27-37 | Normalisation puts the keys of every object in order: array indices strictly by number, then the others strictly by code unit |
| CanonicalShortest.IndicesEnd | src/canonical.ts:27-37 | Keys up to 4294967294 are array indices, 4294967295 and on are not |
| CanonicalShortest.KeysCompared | src/canonical.ts:27-37 | 2 before 10, and 10 before 01, the empty key, B and a in turn |
| CanonicalShortest.WordsSpelled | src/canonical.ts:42-44 | null, true, false, 0 for negative zero, [] and {} |
| CanonicalShortest.MarksSpelled | src/canonical.ts:42-44 | Brackets, braces, commas, colons and quotes with nothing between them |
| CanonicalShortest.LettersSpelled | src/canonical.ts:42-44 | Backspace, tab, newline, form feed and carriage return by letter |
| CanonicalShortest.SurrogatesSpelled | src/canonical.ts:42-44 | A pair of surrogates is kept, a lone one escaped, their neighbours kept |
| CanonicalProofs.AcceptsExactlyPlain | src/canonical.ts:16-39 | Canonicalisation throws exactly on values holding undefined, functions, symbols, big integers or non-finite numbers |
| CanonicalProofs.PrintedKeyOrder | src/canonical.ts:27-37 | Keys print as array indices by number, then all other keys by code unit |
| CanonicalProofs.SnapshotKeepsDigest | src/administrator-handoff.ts:1134-1136 | Parsing canonical text and digesting the result again gives the digest of the original |
| CanonicalProofs.CanonicalTextWellFormed | src/canonical.ts:42-48 | Canonical text has no unpaired surrogate, so encoding it for the hash loses nothing |
| CanonicalProofs.DigestIdentifies | src/canonical.ts:46-48 | Under a collision-free hash, equal digests mean equal values, and conversely |
| Glob.RewriteCorrectExactly | src/bounded-worktree.ts:535-542 | The three-pass rewrite yields a pattern that agrees with the recursive glob meaning on every target if and only if the scope has no NUL |
| Glob.RewriteYieldsTokens | src/bounded-worktree.ts:535-541 | The rewritten text reads as a pattern whose terms are the scope's tokens, every other character literal |
| Glob.PrefixScope | src/bounded-worktree.ts:535-542 | A scope ending in /** matches exactly what lies below its literal prefix and has no line terminator |
| RepositoryPath.CanonicalExactly | src/bounded-worktree.ts:511-533 | The checks accept exactly non-empty relative paths without forbidden characters whose segments are proper names; one trailing slash passes |
| RepositoryPath.SingleCharacterCanonical | src/bounded-worktree.ts:511-520 | Which single characters a path may be |
| GitListing.StatusNameExactly | src/bounded-worktree.ts:797-820 | The status listing prints a path as it is exactly when it is printable ASCII without space, double quote and backslash; any other comes out longer and in quotes |
| GitListing.OnlyPlainNames | src/bounded-worktree.ts:804-823 | If the names printed for a finite set of paths are all paths of the set, every path of the set is plain |
| GitListing.Utf8Reads | src/bounded-worktree.ts:977-981 | The bytes written for a text read back, by RFC 3629 in shortest form, as its characters |
| GitListing.ListedNameReads | src/bounded-worktree.ts:1026-1052 | A name quoted by ls-files and diff reads as a C string to the bytes of the path |
| BoundedWorktree.ValidateTargetSet | src/bounded-worktree.ts:655-721 | Succeeds exactly for a target set within budget whose targets are authorised and pairwise different in slot, path and lower-cased path; returns the slot map |
| BoundedWorktree.CheckTarget | src/bounded-worktree.ts:697-716 | Accepts exactly a canonical path in an allowed scope, unprotected or on the one demo list, not seen before, with consistent preconditions; a target that may not be written is denied as such whatever its limits |
| BoundedWorktree.ValidateBoundedExecutionGrant | src/bounded-worktree.ts:723-762 | Succeeds exactly for an unexpired grant on the expected base with a valid target set and every mandatory verification command once |
| BoundedWorktree.ValidateTargetFreePatch | src/bounded-worktree.ts:764-788 | Succeeds exactly for a patch whose changes name known slots, each once, without NUL |
| BoundedWorktree.Worktree.ApplyChange | src/bounded-worktree.ts:933-1008 | One iteration succeeds exactly when walk, precondition, size limit and tracking allow it, and then writes and stages exactly the target path; a failing one stages nothing, and has written the file exactly when it got past the checks before writing |
| BoundedWorktree.StepExactly | src/bounded-worktree.ts:942-998 | On a tree reached by writing other paths, the checks of one iteration say exactly that the change is writable on the base and keeps a tree |
| BoundedWorktree.WriteChanges | src/bounded-worktree.ts:932-1009 | The loop succeeds exactly when every change is writable on the base itself and the overridden base is a tree, and leaves base plus overlay in worktree and index |
| BoundedWorktree.ListingExactly | src/bounded-worktree.ts:804-824 | Status prints as many different names as files changed, every written path among them, only if the written paths are what changed and all are plain |
| BoundedWorktree.CheckListings | src/bounded-worktree.ts:804-1053 | The checks on the status, staged and indexed names pass exactly when the written paths are what changed, within the file limit, and all are plain |
| BoundedWorktree.CheckWorkingTree | src/bounded-worktree.ts:1010-1053 | The post-checks pass exactly when every change changed something, within the file limit, and every written path is one Git prints as it is |
| BoundedWorktree.RunVerification | src/bounded-worktree.ts:827-872 | Passes exactly when every granted command is a usable entry of the registry that the runner may start, and passes |
| BoundedWorktree.ExecuteBoundedWorktree | src/bounded-worktree.ts:874-1141 | Succeeds exactly for a valid grant and patch whose changes are all allowed on the base, under plain names Git tracks, and whose result is accepted. The result has one record for each path at which its tree differs from the base, in path order, with slot and operation as granted, the digest of the content before in the base if it was there and of the content after in the tree, and its size; the tree digest is taken over those paths and contents; nothing is deleted |
| BoundedWorktree.OutcomeTells | src/bounded-worktree.ts:1000-1135 | Records, tree digest and difference told from base and new tree alone |
| BoundedWorktree.NameDecides | src/bounded-worktree.ts:790-825 | Creating one file on an empty base with every limit ample: accepted exactly when Git prints its name as it is and the difference checks pass |
| BoundedWorktree.SpacedNameRefused | src/bounded-worktree.ts:804-819 | Creating one file named with a space in an allowed scope: grant and patch are valid, the write loop succeeds, and the run fails |
| BoundedWorktree.WritesAreAuthorized | src/bounded-worktree.ts:655-1053 | Every written path of a successful run is canonical, in scope, unprotected or on the demo list, within its limit, created where absent or modified on a digest match; no two agree after lower-casing; nothing else changes |
| BoundedWorktree.OrderOfChangesIrrelevant | src/bounded-worktree.ts:932-1135 | Permuting the changes of a patch changes neither success nor any part of the result |
| BoundedAuthority.AcceptedStaysWithin | src/bounded-worktree.ts:655-762 | An accepted run keeps to an unexpired grant bound to its accord, and the grant to the limits of the accord; every command the accord demands has passed |
| BoundedAuthority.GrantSurvives | src/bounded-worktree.ts:655-762 | A larger budget, more allowed paths and an earlier moment never invalidate a grant |
| BoundedAuthority.DemoPathsExactly | src/bounded-worktree.ts:117-129 | The protected paths an accord may write are those of its demo capability if it asks for exactly one |
| BoundedAuthority.ScopesMean | src/bounded-worktree.ts:535-549 | For scopes without NUL, in scope and protected mean what the globs mean, protected whatever the case of the letters |
| BoundedAuthority.SlotsAtTheirLimits | src/bounded-worktree.ts:698 | Slots of 1 to 63 lower-case letters, digits and hyphens from a letter on |
| BoundedAuthority.ShasAtTheirLimits | src/bounded-worktree.ts:663 | Forty lower-case hexadecimal digits |
| DirectoryTree.VisitDirectory | scripts/probe-review-agent-runtime.ts:152-194 | The recursive visit records exactly the preorder of name-sorted entries, and succeeds exactly when nothing but files and directories lies below |
| DirectoryTree.VisitSucceedsExactly | scripts/probe-review-agent-runtime.ts:166-190 | Visiting any list of entries succeeds exactly when each of them is regular all the way down |
| DirectoryTree.RecordsIdentifyTree | scripts/probe-review-agent-runtime.ts:160-191 | Two trees have equal record lists exactly when they are the same tree |
| DirectoryTree.DigestIdentifiesTree | scripts/probe-review-agent-runtime.ts:152-194 | Under collision-free hashes two trees have the same digest exactly when they are the same tree |
| DirectoryTree.VisitOrderIsNotPathOrder | scripts/probe-review-agent-runtime.ts:161-177 | The record list is not sorted by path: a directory sorts before a sibling whose paths sort before its contents |
| DirectoryRecords.RecordsTell | scripts/probe-review-agent-runtime.ts:160-191 | The records are those of everything that following names from the root leads to: directories by path, files by path, size and hash of content |
| DirectoryRecords.FileSpelled | scripts/probe-review-agent-runtime.ts:176-187 | Fields path, type, size and sha256 in this order |
| DirectoryRecords.DirectorySpelled | scripts/probe-review-agent-runtime.ts:171-173 | Fields path and type in this order |
| ShellQuote.QuotedIsOneWord | scripts/probe-review-agent-runtime.ts:357-359 | A POSIX tokenizer (XCU 2.2.2, 2.2.3) reads the quoted value as exactly one word equal to it, if and only if it has no NUL |
| ShellQuote.QuotedReads | scripts/probe-review-agent-runtime.ts:357-359 | In any context, a quoted value extends the word in progress by exactly that value |
| ShellQuote.QuotedSpelled | scripts/probe-review-agent-runtime.ts:357-359 | A value stands between single quotes, each quote of its own as a closing, a double-quoted and an opening one |
| ShellQuote.ProbeCommandReads | scripts/probe-review-agent-runtime.ts:704-709 | The probe command reads as printf, format, content and one redirection, whatever the content and path hold |
| KeyedLists.FindDuplicateKeys | src/duplicate-keys.ts:13-23 | Returns exactly the keys that occur more than once, each once; none exactly when all keys differ |
| KeyedLists.CountKeys | src/duplicate-keys.ts:17-21 | The counter holds the exact number of occurrences of every key |
| KeyedLists.LookupExactly | src/administrator-plan.ts:801-818 | With distinct keys, the lookup Map finds the one observed entry of a planned key |
| KeyedLists.Corresponds | src/administrator-plan.ts:801-818 | Matching two lists key by key is a one-to-one correspondence of their entries |
| KeyedLists.SetsExactlyEqual | src/administrator-plan.ts:340-351 | True exactly for duplicate-free lists with the same members |
| AdministratorPlan.ValidateRuleset | src/administrator-plan.ts:495-570 | No issue exactly for a bypass-free ruleset of literal refs that resolve to the protected refs, in its namespace, true to its name, with its controls on |
| AdministratorPlan.LiteralRefExactly | src/administrator-plan.ts:379-383 | A ref is literal when none of its characters is white space or a pattern sign |
| AdministratorPlan.RulesetMeans | src/administrator-plan.ts:495-570 | A valid ruleset is bypass-free, has its controls on, and protects exactly the included refs not excluded, each once, under refs/heads/ or refs/tags/ |
| AdministratorPlan.NamedMeans | src/administrator-plan.ts:545-554 | A valid branch ruleset with main anywhere in its name protects the main branch |
| AdministratorPlan.ValidateChecks | src/administrator-plan.ts:477-485 | No issue exactly for distinct check names containing every required one |
| AdministratorPlan.ValidateGhas | src/administrator-plan.ts:615-638 | No issue exactly for the one required combination of settings |
| AdministratorPlan.ValidateAdministratorPlan | src/administrator-plan.ts:473-640 | No issue exactly for a valid configuration |
| AdministratorPlan.PlanAdministratorConfiguration | src/administrator-plan.ts:391-453 | Succeeds exactly when the caller's rulesets, environments and contacts are present and valid; the plan carries the caller's part as given, the twelve required checks, the selected and read-only Actions policy, all GHAS protections and no authority, and validates |
| AdministratorPlan.AssembledExactly | src/administrator-plan.ts:405-448 | What the caller supplies decides alone whether an assembled plan is valid |
| AdministratorReadback.CompareAdministratorReadback | src/administrator-plan.ts:740-1038 | No issue exactly when plan valid, digest, identity and freshness hold, and the readback is the same configuration up to order, with no ref list of either side repeating a ref; driftFound plays no part |
| AdministratorReadback.AcceptedMeans | src/administrator-plan.ts:740-1038 | An accepted readback is bound and fresh, shows every planned ruleset field by field and no other, every environment, check and contact as planned and as often, and all else equal |
| AdministratorReadback.CompareRulesets | src/administrator-plan.ts:801-884 | No issue exactly when every observed ruleset is planned and every planned one has a matching observation |
| AdministratorReadback.CompareRuleset | src/administrator-plan.ts:819-884 | No issue exactly when source, target, ref sets, enforcement, bypass list and controls match |
| AdministratorReadback.MatchesExactly | src/administrator-plan.ts:819-884 | Beside a valid planned ruleset, matching is equality up to the order of refs |
| AdministratorReadback.CompareEnvironments | src/administrator-plan.ts:886-919 | No issue exactly when the observed environments cover the planned ones and no other |
| AdministratorReadback.CompareChecks | src/administrator-plan.ts:921-941 | No issue exactly when the observed checks cover the planned ones and no other |
| AdministratorReadback.CompareContacts | src/administrator-plan.ts:1008-1023 | No issue exactly when planned and observed contact keys agree |
| AdministratorReadback.ContactKeyInjective | src/administrator-plan.ts:1008-1013 | The joined key still tells role and handle apart |
| AdministratorReadback.VerdictForgetsOrder | src/administrator-plan.ts:740-1038 | Permuting the lists of a readback does not change the verdict |
| AdministratorReadback.AcceptedReadsAsPlan | src/administrator-plan.ts:740-1038 | An accepted readback, read as a plan, passes the plan validator |
| AdministratorReadback.MatchableExactly | src/administrator-plan.ts:353-356 | Some readback is accepted exactly for the valid plans that repeat no ref within a list |
| AdministratorReadback.DuplicatedExclusionUnmatchable | src/administrator-plan.ts:353-356 | For a concrete input with a doubly excluded ref the planner returns a plan, and every readback of it is rejected |
| AdministratorCatalogue.RealWellOrdered | src/administrator-handoff.ts:145-388 | The 27 controls are distinct and every prerequisite comes earlier in sequence |
| AdministratorCatalogue.ChainDescends | src/administrator-handoff.ts:145-388 | In any such catalogue positions fall along prerequisite chains, so none is longer than the catalogue and none is circular |
| AdministratorCatalogue.CanaryForces | src/administrator-handoff.ts:324-363 | Any prerequisite-closed set with the canary holds every control but the three excluded ones |
| AdministratorCatalogue.ProductionForces | src/administrator-handoff.ts:364-380 | Any prerequisite-closed set with production-readiness holds everything but open-source-preflight |
| AdministratorCatalogue.NothingNeedsOpenSource | src/administrator-handoff.ts:145-388 | No prerequisite chain leads to open-source-preflight, so it is the one control not forced |
| AdministratorHandoffPlan.ValidateAdministratorHandoffPlan | src/administrator-handoff.ts:1341-1426 | No issue exactly for the one fixed document over the catalogue, with any epoch and nine well-formed source digests |
| AdministratorHandoffPlan.PlanAdministratorHandoff | src/administrator-handoff.ts:1318-1339 | Succeeds exactly for nine well-formed source digests; the plan it returns validates and carries them |
| AdministratorHandoffPlan.Sha256Exactly | src/administrator-handoff.ts:1377 | The prefix and sixty-four lower-case hexadecimal digits, nothing else |
| AdministratorHandoff.CompareAdministratorHandoffReadback | src/administrator-handoff.ts:1979-2223 | Valid exactly for a fresh readback bound to the trusted plan, inside its evidence-only boundary, whose controls all stand on their evidence; gaps are exactly the unsatisfied controls |
| AdministratorHandoff.ReadbackMeans | src/administrator-handoff.ts:1979-2223 | A valid readback is fresh and bound, lists every control of the catalogue exactly once, satisfied ones on live, digested evidence with their bindings observed and unsatisfied ones without evidence; a synthetic one satisfies nothing |
| AdministratorHandoff.GapsInOrder | src/administrator-handoff.ts:2182-2184 | The gaps are the unsatisfied controls in listed order |
| AdministratorHandoff.CheckControl | src/administrator-handoff.ts:2110-2181 | No issue for a control exactly when its status rests on the source, reason, evidence, bindings and prerequisites demanded |
| AdministratorHandoff.CheckHumanReview | src/administrator-handoff.ts:2185-2221 | No issue exactly when a claim of human review is backed by the whole scan |
| AdministratorHandoff.SatisfiedClosed | src/administrator-handoff.ts:2119-2147 | For any catalogue, the controls a valid readback calls satisfied contain all their prerequisites |
| AdministratorHandoff.SatisfiedTransitively | src/administrator-handoff.ts:2119-2147 | A satisfied control has every transitive prerequisite satisfied on live evidence from its responsible owner |
| AdministratorHandoff.ProductionNeedsEverything | src/administrator-handoff.ts:364-380 | A valid readback with production-readiness satisfied has every control but open-source-preflight satisfied |
| AdministratorHandoff.CanaryPassesScan | src/administrator-handoff.ts:2185-2212 | The canary alone makes the human-review scan pass and every target binding present, the source owner among them |
| AdministratorHandoff.HumanReviewExactly | src/administrator-handoff.ts:2185-2221 | A valid readback may claim human review exactly when it reports the canary satisfied |
| AdministratorHandoff.ScanCovers24 | src/administrator-handoff.ts:2185-2192 | The scan covers 24 controls |
| AdministratorState.StateSetIssues | src/administrator-handoff.ts:1152-1210 | No issue exactly for a declared count that matches, safe integers, and each key once in sorted order |
| AdministratorState.SafeIntegersEnd | src/administrator-handoff.ts:1152-1210 | Safe integers end at 9007199254740991 on both sides |
| AdministratorState.StateSetsEqualExactly | src/administrator-handoff.ts:1138-1143 | Comparing canonical digests of state sets compares the sets themselves |
| AdministratorState.ValidStatesByEntries | src/administrator-handoff.ts:1152-1210 | Two valid state sets holding the same entries are the same set |
| AdministratorApply.ValidateAdministratorApplyPlan | src/administrator-handoff.ts:1487-1692 | No issue exactly for a valid intent bound by attempt id and idempotency key under the fixed protocol |
| AdministratorApply.CheckRequirements | src/administrator-handoff.ts:1560-1606 | No issue exactly when current and desired states carry the required keys in order with values of their domains and demanded desired values |
| AdministratorApply.CheckTarget | src/administrator-handoff.ts:1607-1659 | No issue exactly when all required bindings are present and the identities inside the target agree |
| AdministratorApply.BindingsPresentExactly | src/administrator-handoff.ts:1607-1620 | Which part of the target each demanded binding is |
| AdministratorApply.PlanAdministratorApply | src/administrator-handoff.ts:1428-1485 | Succeeds exactly for a valid intent bound to a trusted handoff plan; the plan it returns validates |
| AdministratorApply.IntentAgrees | src/administrator-handoff.ts:1487-1692 | A valid intent names one owner throughout, another one before a transfer, a branch ruleset for the main ruleset, and a time span |
| AdministratorApply.CompareApplyReadbackBase | src/administrator-handoff.ts:1694-1748 | No issue exactly for a complete, fresh, evidence-only readback bound to plan, target and attempt |
| AdministratorApply.ValidateAdministratorApplyGate | src/administrator-handoff.ts:1750-1869 | Ready exactly when plan, separate confirmation and pre-apply readback are bound, ordered, fresh, unexpired and show the expected state before any attempt |
| AdministratorApply.ValidateAdministratorPostApplyReadback | src/administrator-handoff.ts:1871-1977 | The desired state counts as observed exactly for a complete trace; reconciliation is demanded exactly for an ambiguous acknowledgement or another state; an ambiguous one is never observed |
| AdministratorApply.CompleteTrace | src/administrator-handoff.ts:1694-1977 | Every trace ending in an observed desired state is one plan, target and attempt; generated <= confirmed <= pre-read <= attempted <= post-read <= now <= both expiries; expected state before, desired state after; one unambiguous attempt |
| AdministratorApply.GateWasOpen | src/administrator-handoff.ts:1750-1869 | An open gate was open at every moment since the pre-apply readback |
| AdministratorApply.GateOpenAtAttempt | src/administrator-handoff.ts:1871-1977 | In a complete trace the gate was open when the attempt was made |
| AdministratorApply.AttemptIdentifiesTrace | src/administrator-handoff.ts:1445-1464 | Two complete traces with one attempt id are of one plan, and their digests identify confirmation and pre-read |
| AdministratorApply.ProtocolCompletes | src/administrator-handoff.ts:1694-1977 | Every valid intent can be carried to a complete trace |
| AdministratorOperations.RequirementsOrdered | src/administrator-handoff.ts:396-590 | The state keys of every control are listed in an order that first differing letters decide |
| AdministratorOperations.ApplicableExactly | src/administrator-handoff.ts:1487-1692 | A control of the real catalogue admits a valid intent exactly when it asks for an apply plan |
| IssueTaxonomy.ValidateTaxonomyConfigSemantics | scripts/reconcile-issue-taxonomy.ts:119-165 | Succeeds exactly for the three canonical labels, a limit within pagination, increasing history and sorted prefixes without overlap; otherwise reports the first of these that fails |
| IssueTaxonomy.AtMostOnePrefix | scripts/reconcile-issue-taxonomy.ts:150-163 | After validation at most one prefix matches any title |
| IssueTaxonomy.ClassForgetsOrder | scripts/reconcile-issue-taxonomy.ts:181-194 | The class of an issue is the same under every ordering of prefixes and history |
| IssueTaxonomy.ClassifyExactly | scripts/reconcile-issue-taxonomy.ts:181-194 | An issue has a class exactly when its number or its title is mapped: the class mapped to the number whatever the title, and only without one the class of the recognized prefix |
| IssueTaxonomy.HistoryDecides | scripts/reconcile-issue-taxonomy.ts:181-190 | A historical mapping of the number is the class whatever the title |
| IssueTaxonomy.PrefixDecides | scripts/reconcile-issue-taxonomy.ts:186-194 | Without one, any recognized prefix of the title is |
| IssueTaxonomy.PrefixesSortedExactly | scripts/reconcile-issue-taxonomy.ts:143-149 | The loop passes exactly for prefixes that are not empty and each strictly before every later one |
| TaxonomyReconciler.ReconcileLabel | scripts/reconcile-issue-taxonomy.ts:341-364 | Against any repository a normal return means one read, exactly the write it calls for and a read that shows the label exact, and nothing but this label is ever written; on an honest one it succeeds exactly for an upper-case colour, leaves the label as configured, and writes nothing when it already is |
| TaxonomyReconciler.ReconcileIssue | scripts/reconcile-issue-taxonomy.ts:366-406 | Against any repository a normal return means a read that matches the plan, exactly the removals and the addition its labels call for, and a read that matches and is settled against the first; nothing else is ever written. An honest one ends with exactly the settled labels, and sees no write when already settled |
| TaxonomyReconciler.RemoveConflicting | scripts/reconcile-issue-taxonomy.ts:381-388 | Sends the removals in order, all of them on success; on an honest repository they amount to one filter of the issue's labels |
| TaxonomyReconciler.CheckSettled | scripts/reconcile-issue-taxonomy.ts:393-405 | Passes exactly for one taxonomy label, the desired one, and the other labels unchanged |
| TaxonomyReconciler.SettleSettles | scripts/reconcile-issue-taxonomy.ts:374-405 | Settling leaves one taxonomy key, the desired one, and the other keys in order |
| TaxonomyRun.ReconcileIssueTaxonomy | scripts/reconcile-issue-taxonomy.ts:408-444 | Against any repository: every write is to a configured label or of a taxonomy label on a planned issue; there is none unless the first read showed issues that can all be planned; a normal return means exactly that read, then each label and each issue reconciled in turn, and returns for each issue the class its number or else its title decides on; an error means the run stopped at the failing step. On an honest one: succeeds exactly when plannable with upper-case colours, ends in exactly the reconciled world, and writes nothing when nothing is left to do |
| TaxonomyRun.ReconcileLabels | scripts/reconcile-issue-taxonomy.ts:434-436 | Against any repository the labels are reconciled one after the other, and a failure stops at one; on an honest one it succeeds exactly for upper-case colours and applies each label step in turn |
| TaxonomyRun.ReconcileIssues | scripts/reconcile-issue-taxonomy.ts:437-439 | Against any repository the issues are reconciled one after the other, and a failure leaves the later ones untouched; an honest one ends with every planned issue settled |
| TaxonomyRun.RunShowsSettled | scripts/reconcile-issue-taxonomy.ts:366-439 | Whatever the repository is, after a normal return the last read of each planned issue matched the plan and showed its one taxonomy label, and the other labels as the read before it |
| TaxonomyOutcome.RunShowsOneTypeLabel | scripts/reconcile-issue-taxonomy.ts:366-439 | Whatever the repository is, after a normal return the last two reads of each planned issue show the planned issue, the last one the label of the class its number or title decides on, once, no other type label, and all other labels as often as before |
| TaxonomyOutcome.RunShowsLabels | scripts/reconcile-issue-taxonomy.ts:341-364 | After a normal return every configured label has been read back with its name, upper-cased colour and description |
| TaxonomyOutcome.PermittedWrites | scripts/reconcile-issue-taxonomy.ts:341-406 | Whatever the repository answers, a run only creates or updates configured labels, adds to a planned issue the label of its class, and removes from it labels of another type |
| TaxonomyOutcome.IssueWritesExactly | scripts/reconcile-issue-taxonomy.ts:374-392 | Between the reads of an issue every label of another type is removed, the label of its class added where no spelling of it is there, and nothing else written |
| TaxonomyOutcome.LabelWritesExactly | scripts/reconcile-issue-taxonomy.ts:345-354 | A label is created when not found, updated under its present name when not as wanted, and left alone when it is |
| TaxonomyOutcome.SettledExactly | scripts/reconcile-issue-taxonomy.ts:393-405 | The readback check is: the label of the class once, no other type label, the rest as often as before |
| TaxonomyRun.ReconciledSettles | scripts/reconcile-issue-taxonomy.ts:366-439 | A successful honest run leaves each planned issue with exactly its one taxonomy label and its other labels in place |
| TaxonomyOutcome.ReconciledAsDecided | scripts/reconcile-issue-taxonomy.ts:408-444 | A successful honest run leaves on each planned issue the key of the class its number or title decides on as the only one of the three, and every other key as often as before |
| TaxonomyOutcome.ReconciledLabelsAsWanted | scripts/reconcile-issue-taxonomy.ts:341-364 | It leaves every configured label with its name, colour and description |
| TaxonomyOutcome.PlannableByMapping | scripts/reconcile-issue-taxonomy.ts:420-434 | The open issues of a world can be planned exactly when they are few enough and each has its number or title mapped |
| TaxonomyRun.ReconciledTouchesNothingElse | scripts/reconcile-issue-taxonomy.ts:408-444 | It touches no other issue and no label outside the taxonomy |
| TaxonomyRun.ReconciledIsQuiet | scripts/reconcile-issue-taxonomy.ts:408-444 | After a successful honest run nothing is left to do and another run is accepted |
| TaxonomyRun.ReconciledIsFixed | scripts/reconcile-issue-taxonomy.ts:408-444 | Reconciling is idempotent: on the reconciled world another run can be planned and leaves it as it is |
| TaxonomyRun.SecondRun | scripts/reconcile-issue-taxonomy.ts:408-444 | On an honest repository a run after a successful one reads everything again, succeeds, makes no write and leaves the world as it is |
| TaxonomyRun.ColourConfirmable | scripts/reconcile-issue-taxonomy.ts:349-363 | Some stored label passes the readback check exactly for an upper-case configured colour |
| AppRegistration.ComputeLeastPrivilegeUnion | src/app-registration-plan.ts:198-214 | Returns, in key order and each once, every permission some operation asks for: at write if any asks for write, at read if only read is asked for |
| AppRegistration.UnionByLevels | src/app-registration-plan.ts:191-214 | A list holds the least upper bound of the operations exactly when it repeats nothing and has each permission at the higher level asked for |
| AppRegistration.ReviewedUnion | src/github-auth.ts:20-61 | The union of the reviewed operations entry by entry |
| AppRegistration.UnionIsLeast | src/app-registration-plan.ts:193-214 | A set of grants covers all operations exactly when it covers the union: the union is their least upper bound |
| AppRegistration.UnionUnique | src/app-registration-plan.ts:198-214 | There is one union, whatever the order and repetition of the operations |
| AppRegistration.PermissionsExactlyEqual | src/app-registration-plan.ts:173-189 | True exactly for duplicate-free lists of the same grants |
| AppRegistration.RepositoryKeyTells | src/app-registration-plan.ts:361-363 | Two repositories share a key exactly when numeric and node id agree |
| AppRegistration.ValidateGitHubAppRegistrationPlan | src/app-registration-plan.ts:287-359 | No issue exactly for the reviewed version, operations and denied names up to order, and their union |
| AppRegistration.PlanGitHubAppRegistration | src/app-registration-plan.ts:228-272 | Succeeds exactly for a name that is not blank and operations asking for nothing denied, and otherwise names the one of these that fails; the plan carries time, name, operations, denied names, the highest levels asked for and no authority, and validates |
| AppRegistration.ComparePermissions | src/app-registration-plan.ts:493-532 | The two loops pass exactly when every observed grant is planned at its level and undenied, and every planned one observed |
| AppRegistration.LoopsPassExactly | src/app-registration-plan.ts:484-532 | With distinct keys that means: exactly the planned grants, none of them denied |
| AppRegistration.CompareGitHubAppPermissionReadback | src/app-registration-plan.ts:425-547 | No issue exactly for a valid bound plan, an unexpired approval, a fresh observation of the approved identity and repositories, and exactly the planned permissions |
| AppRegistration.InstalledIsLeastPrivilege | src/app-registration-plan.ts:425-547 | What an accepted readback shows installed is exactly the least upper bound of the reviewed operations, each permission once at the higher level asked for, on the approved identity and repositories, observed within the window and before the approval expires |
| AppRegistration.MatchableExactly | src/app-registration-plan.ts:287-359 | A valid plan can be matched by some readback exactly when its manifest asks for nothing it denies |
| AppRegistration.DenyingManifestUnmatchable | src/app-registration-plan.ts:287-359 | A concrete manifest that denies what it asks for: its plan validates and every readback is rejected |
| AppRegistration.ReviewedPlansMatchable | src/github-auth.ts:20-61 | The reviewed manifest repeats nothing and asks for nothing it denies, so every valid plan for it is matched by some readback |
| DemoJourney.HermeticFakeModel.Invoke | scripts/simulate-demos.ts:393-429 | Throws exactly without a binding; otherwise records one invocation at ten milliseconds per ordinal |
| DemoJourney.RunStage | scripts/simulate-demos.ts:902-1064 | One iteration succeeds exactly when binding, core states and kernel result exist, and yields artifact, receipt and fences of the stage |
| DemoJourney.FullJourneyReconstruction | scripts/simulate-demos.ts:842-1141 | Runs exactly when the kernel reached human review and a human stage follows supported stages; artifact and receipt of each stage before it show its ids, ordinals, times, cores, applied kernel result and digests, and fences, invocations, run state and usage are those of the stages |
| DemoJourney.StageShows | scripts/simulate-demos.ts:918-1053 | A model stage hands on the model's output and names its producer, any other stage its own texts; the receipt binds artifact, cores and, where the core changes, receipt and result digest of the applied transition |
| DemoJourney.JourneyReceiptsLinked | scripts/simulate-demos.ts:1010-1065 | Each receipt names the one before it, and the core it leaves is the core the next one finds |
| DemoJourney.RunStateClosesChain | scripts/simulate-demos.ts:1067-1113 | The run state lists the digests of the receipts in chain order, each named by the next receipt and the last by the run state itself |
| DemoJourney.JourneyFencesGood | scripts/simulate-demos.ts:965-1009 | Fences alternate acquire and release in one chain, each pair around its model invocation |
| DemoJourney.WindowsDisjoint | scripts/simulate-demos.ts:965-1009 | With increasing ordinals every fence is released before the next is acquired |
| DemoJourney.ReceiptBindsFences | scripts/simulate-demos.ts:1024-1053 | A receipt carries the digests of its artifact and of its own two fences |
| DemoJourney.UsageOf | scripts/simulate-demos.ts:1124-1135 | The reductions yield the sums over all invocations |
| DemoJourney.UsageAdds | scripts/simulate-demos.ts:1124-1135 | The reductions over all invocations grow by one call, 100 tokens and one cost unit per model stage |
| DemoStores.RunStateStore.CompareAndSwap | scripts/simulate-demos.ts:334-343 | Swaps exactly on the expected digest |
| DemoStores.ProjectionPort.Write | scripts/simulate-demos.ts:365-374 | Writes and records the field exactly on the expected digest |
| DemoStores.DispatchStore.Persist | scripts/simulate-demos.ts:259-310 | The first decision is kept; the same one is reported as existing, another as a conflict |
| DemoStores.OneSwapWins | scripts/simulate-demos.ts:334-374 | Of all racing requests that expect one state at most one succeeds, if no request brings that state back |
| EvidenceLog.HermeticGitHubApi.AppendEvidence | src/authority-walkthrough.ts:1186-1205 | Appends exactly under the current head the record signed, under its node id, keeps the head describing the last record, and changes nothing on a conflict |
| EvidenceLog.HermeticGitHubApi.ApplyEffect | src/authority-walkthrough.ts:1132-1156 | Acts exactly on a precondition that matches the present state, once per success |
| EvidenceLog.LogOnlyGrows | src/authority-walkthrough.ts:1186-1205 | Over any interleaving of writers the log is append-only |
| EvidenceLog.SequencesKeepIncreasing | src/authority-walkthrough.ts:1186-1205 | If writers number records beyond the head they name, sequences increase throughout |
| EvidenceLog.HeadConsumedOnce | src/authority-walkthrough.ts:1186-1205 | If writers number records beyond the head they name, each head value, null included, is consumed by at most one successful append |
| EvidenceLog.HeadsConsumedOnceExactly | src/authority-walkthrough.ts:1186-1205 | Over any run of any writers, each head is consumed at most once if and only if the records behind the consumed heads are pairwise distinct |
| EvidenceLog.NewRecordsExactly | src/authority-walkthrough.ts:1186-1205 | The same as a check before each call: no accepted request that another one follows resubmits a record the log holds from the run's first head on |
| EvidenceLog.HeadComesBack | src/authority-walkthrough.ts:1186-1205 | Two different records submitted in turn: four requests succeed, two of them under one head, and none leaves the head in place |
| EvidenceLog.HeadStaysExactly | src/authority-walkthrough.ts:1065-1082 | A successful append leaves the head in place exactly when it repeats the last record |
| EvidenceLog.RepeatedRecordReplaysHead | src/authority-walkthrough.ts:1186-1205 | A writer that resubmits the record behind the head consumes that head as often as it likes |
| Authorization.AuthorizeHumanGate | src/authorization.ts:53-97 | Passes exactly when some candidate opens the gate; otherwise reports the first candidate's refusal |
| Authorization.AuthorizeActor | src/authorization.ts:185-219 | Passes exactly for an allowed class, an authorised identity and an open gate bound to the actor; otherwise names class, identity or gate refusal, in this order |
| Authorization.IdentityExactly | src/authorization.ts:20-51 | An identity is authorised exactly when the first rule for its class fits: human or not as it says, no bot as a human, every required role held |
| Authorization.IdentityRefusals | src/authorization.ts:20-51 | Which refusal an identity gets: no rule for its class, the wrong kind, or a role missing |
| Authorization.EvidenceRefusals | src/authorization.ts:99-183 | Evidence is turned down on the first ground that holds, of eight in order |
| Authorization.FirstCandidate | src/authorization.ts:62-68 | The first candidate is the first piece of evidence for the gate and the expected actor |
| Authorization.GateOpensExactly | src/authorization.ts:53-183 | A gate is open exactly when some evidence is a valid, current, accord-bound statement of an authorised human, from the expected actor and not from the requester of an independent gate |
| Authorization.GateForgetsOrder | src/authorization.ts:53-97 | The order of evidence does not decide the gate |
| Authorization.MoreEvidenceHelps | src/authorization.ts:53-97 | Adding evidence never closes an open gate |
| Authorization.ExpiredGateStaysShut | src/authorization.ts:134-150 | Once every statement has expired the gate is shut at that and every later moment |
| Authorization.RequesterNeverOpensIndependentGate | src/authorization.ts:124-134 | With the requester as expected actor an independent gate stays shut |

## Left out

- RecordingRaster.RenderLines: upper-casing is a function passed in, and text is Unicode characters, so an unpaired surrogate in a line is not modelled.
- RecordingGif.RenderAuthorityBoundaryGif: the reader knows graphic control extensions and non-interlaced images without local colour tables, which is all the writer emits; other extensions read as malformed.
- CanonicalProofs.RoundTrip: a finite number other than -0 is its decimal text; that distinct numbers print differently is taken from ECMA-262. Accessors, proxies, sparse arrays and toJSON are not modelled.
- Glob.RewriteCorrectExactly: only the pattern grammar the rewrite can produce is given a meaning.
- RepositoryPath.CanonicalExactly: covers the checks of canonicalRepositoryPath, not the later resolution of the path against the sandbox root.
- BoundedWorktree.Worktree.ApplyChange: file modes, symbolic links, attribute filters and parent directories as entries of their own are not modelled; files are a map from path to bytes, and a directory is a prefix. What `git add` refuses to track is a function of base and path. Content is Unicode text without unpaired surrogates. A file-system error counts as a denied target.
- BoundedWorktree.ExecuteBoundedWorktree: Git's summary, numstat and whitespace checks, the patch text and each verification command are functions of base and result; the runner is assumed to leave the index alone. Sandbox setup, timeouts and clean-up are left out.
- BoundedWorktree.CheckTarget: the protected scopes are a parameter, and capability names that collide with properties of Object.prototype are not considered.
- DirectoryTree.VisitDirectory: a tree does not change while it is read.
- AdministratorPlan.ValidateAdministratorPlan: issues carry a section and an entry instead of their text. checkReadbackDriftCoherence is not modelled.
- AdministratorHandoff.CompareAdministratorHandoffReadback: the readiness fields of a readback that the schema fixes to one value are left out (schemas/v1alpha1/administrator-handoff.schema.json:949-950), as are the handoff report and its validator.
- AdministratorApply.ValidateAdministratorApplyPlan: marker objects of apply documents are one boolean each.
- AdministratorOperations.ApplicableExactly: that localeCompare orders keys by their first differing lower-case letter is a hypothesis, met by code-unit order.
- TaxonomyRun.ReconcileIssueTaxonomy: the honest repository has no other writer during the run. Workflow environment parsing and the GitHub REST client are left out.
- AppRegistration.ComputeLeastPrivilegeUnion: localeCompare is any total order on permission keys.
- DemoJourney.FullJourneyReconstruction: the kernel path is given by its final state, core bindings and results; contract validation, signatures and projection documents are left out, and documents keep the fields the chain depends on. A journey that throws may leave invocations in the model.
- EvidenceLog.HermeticGitHubApi.AppendEvidence: signatures are opaque; the getters that only return fixed values are left out.
- KernelStore and the unreachable service stubs of the simulation only store or throw.
- The kernel, policy compiler, single writer, scheduler and durable stores.
- Hash and signature mathematics; network, process and schema plumbing; document and transcript rendering; command-line parsing.
