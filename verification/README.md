# Verified model of the canonicalization and chunking engine

A Dafny 4.11 model of the parts of `maestro-canonicalization` and of the kernel's artifact store
whose correctness spans several functions: the packer and its independent validators, the byte
ledger and its repair pass, the mapping of derived text to source, the structure builders, and two
publish protocols. `dafny verify dfyconfig.toml` checks the whole project.

Where the source changes things step by step, a method does the same with loops, arrays or a class
(`Assembly.Builder`, `Mappers.Mapper`, `GroupLinks.WireParentage`) and is proved equal to a
specification function; what the source promises is then proved about that function. The two
publish protocols are state machines over names, inodes and bytes, one file system call a step.

| modules | what they hold |
|---|---|
| `Common`, `Sorting`, `Units`, `Documents`, `Layouts` | shared values, stable sorting, source units, parsed nodes and blocks, a document indexed for chunking |
| `Ranges`, `Brackets`, `Fitting`, `Slices` | legal cuts between nested delimiters, balance of cut pieces, the search for a prefix that fits, mapping runs under slicing |
| `Preparation`, `Reading`, `Parts`, `Splitting`, `Conservation`, `Refining`, `Atoms`, `Packing`, `Sharing`, `Drafts` | preparing a body, what it reads as and what its parts are, splitting one unit, refining rows, atoms and ideas, the packing loop and which text may share a chunk |
| `Coverage`, `Replay`, `Verdicts`, `Rebuilding`, `Ordering` | the checkers, what their acceptance means, and what the preparer's parts are to them |
| `Tables`, `TableTurns`, `TableStarts`, `Absorbing`, `Refusals`, `Acceptance` | table rows through packing and absorbing; when the checkers accept what the packer builds, and when they cannot |
| `Lookups`, `RowTexts`, `Examples`, `EmptyCells`, `LostText` | concrete documents run through the packer |
| `Hanging`, `Indexing`, `WalkOrder`, `DocumentTables`, `Chunking` | why the layouts of assembled and mapped documents are what packing needs; a node tree chunked and checked |
| `Accounting`, `Roles`, `Gaps`, `Repair`, `Pipeline` | the endpoint sweep, the roles of characters read off the tree, uncovered source, kept gaps, the passes of canonicalization |
| `Assembly`, `Trees`, `Sections` | the heading stack, the document as the tree it comes from, the section validator |
| `Mapping`, `Drawing`, `Mappers`, `Contexts`, `Reaching`, `Ledger` | drawing inline content, the pieces and wrappers of a unit, the walk over blocks, markers and labels ahead of their content, why the walk reaches every block once, ledger dispositions |
| `TablePacking`, `GroupLinks`, `Grouping` | cached indices, reciprocal links, exact grouping |
| `Snapshots`, `SnapshotSafety`, `SnapshotRuns` | saving a document, with any number of writers, crashes and losses of power |
| `Artifacts`, `ArtifactSafety` | the content-addressed store, with foreign damage as a step |

## How the source is represented

- Text is a sequence of Unicode scalars and every offset counts scalars. The UTF-8 boundary checks
  of the source (section 3 of RFC 3629) become bounds checks.
- Identifiers are opaque numbers with equality and an order; a block's is its index, where the source
  uses a digest that includes the index. Digests of file contents are an arbitrary function; results
  that need it to tell bytes apart say so (`ArtifactSafety.PutThenGet`).
- The token counter is an arbitrary function of the text that may fail; nothing asks it to grow with
  the text. A batch caches the count of every text, so equal texts count alike
  (`crates/maestro-canonicalization/src/chunks/build.rs:50-58`).
- The choice of context for a body is an arbitrary function, so every result about packing holds for
  whatever headings, ancestors and table headers it names.
- Each unit's kept part is given, from the unit's start to a normalized end.
- Results about packing hold for layouts that meet stated conditions (`Acceptance.Sound`,
  `Tables.TablesRegular`). `Chunking.LayoutIsSound` derives them for the layout of any tree whose tables
  are shaped as the parser shapes them: tables of rows, rows of cells, cells of inline content.

## What the proofs found

- Text beside a row's cells. Source kept from a malformed row is put into the row, outside every cell
  (`LostText.GapInRow`), and then no chunk is built at all (`LostText.StrayRefused`):
  `Atoms.PackRefusedExactly` says exactly which documents packing refuses. A block nested in a cell
  shares the row's atom; when that is refined by its columns the block's text is in no draft, and
  coverage refuses the document (`LostText.NestedIsLost`). `Atoms.AtomLosesExactly` says exactly which
  atoms lose text; tables as the parser shapes them have none.
- Two tables in one list item. Packed by section, with a minimum or without, they are one idea, and a
  chunk that holds it is refused (`Examples.TwoTablesRefused` runs such a document). Where no step holds
  rows of two tables and no small draft is absorbed, every draft is accepted, for every counter; where
  every step fits one chunk, exactly there (`Acceptance.BuildChecked`, `Chunking.ChunkTree`).
- An empty cell. With the minimum of the section profile a draft can be joined to the end of the row
  before it, because both show the same column, and then to a piece of its own row's next column; the
  chunk shows one column of a row and two of the next and is refused. `EmptyCells.EmptyCellRefused` runs
  such a document. `Tables.JoinsExactly` says which joins spoil the order; none does where rows do not
  clash (`Absorbing.AbsorbedTabular`), as in tables of even rows without empty cells
  (`Absorbing.FilledDoNotClash`).
- A range may start with a closing delimiter and still count as normalized, and its piece is then
  unbalanced. It is balanced if and only if no closing delimiter starts where the range does
  (`Brackets.PieceBalancedExactly`); pieces cut by the splitter never start there.
- A snapshot writer that meets a file another writer has linked but not flushed goes on without flushing
  the directory, so a loss of power can leave `canonical.json` without `original.md`
  (`SnapshotRuns.BorrowedOriginalIsNotFlushed`). `SnapshotRuns.SurvivesExactly` says when a state
  survives, `SnapshotRuns.RunSurvivesExactly` which steps make a run vulnerable. The artifact store
  flushes the directory in that case and has no such state (`ArtifactSafety.PutLasts`).
- The table packer's cached positions are right when the list is in the order its own sort uses, start
  and then identifier, and tables come one after the other (`TablePacking.Laid`).

## Model

| member | source | states |
|---|---|---|
| Ranges.NormalizeRange | crates/maestro-canonicalization/src/chunk_split/ranges.rs:6-48 | The loop that moves the end past closing delimiters computes the specification function, refusals included. |
| Ranges.ClosingsTaken | crates/maestro-canonicalization/src/chunk_split/ranges.rs:25-37 | However the delimiters lie, one pass per envelope reaches the fixed point: the bounded loop never gives up early. |
| Ranges.NormalizedRangeCuts | crates/maestro-canonicalization/src/chunk_split/ranges.rs:6-48 | For nested disjoint delimiters a returned range starts where asked, reaches at least as far, ends inside no delimiter and just after no opening, holds plain text, and passes no stop that is itself a clean cut. |
| Ranges.NormalizedRangeIdempotent | crates/maestro-canonicalization/src/chunk_split/context.rs:438-440 | Normalizing a returned range gives it back, so the check that a fragment repeats never fails. |
| Ranges.NormalizedExactly | crates/maestro-canonicalization/src/chunk_split/ranges.rs:6-48 | A range stands as it is if and only if it is a nonempty range of the text with plain text in it that starts inside no delimiter and ends at a clean cut. |
| Brackets.RunScan | crates/maestro-canonicalization/src/chunk_split/context.rs:430-472 | Reading any stretch of a nested unit turns the wrappers open at its start into those open at its end. |
| Brackets.OpenExactly | crates/maestro-canonicalization/src/chunk_split/context.rs:443-469 | At a clean cut the delimiters that are repeated are exactly those of the wrappers open there. |
| Brackets.PieceBalanced | crates/maestro-canonicalization/src/chunk_split/context.rs:430-472 | The delimiters of a piece that ends at a clean cut and starts inside no delimiter and not at a closing one, repeated ones included, form a balanced bracket word, nested as in the unit. |
| Brackets.PieceBalancedExactly | crates/maestro-canonicalization/src/chunk_split/context.rs:430-472 | The piece of a normalized range is balanced if and only if no wrapper's closing delimiter starts where the range does. |
| Brackets.UncleanStartUnbalanced | crates/maestro-canonicalization/src/chunk_split/ranges.rs:6-48 | A concrete range, accepted as normalized, whose piece is unbalanced: it starts with a closing delimiter. |
| Fitting.Boundaries | crates/maestro-canonicalization/src/chunk_split/prepare.rs:213-230 | The two lists are exactly the cuts after whitespace and the sentence ends or code lines among them, each once and in increasing order. |
| Fitting.LastCut | crates/maestro-canonicalization/src/chunk_split/prepare.rs:247-255 | The last preferred cut strictly inside a prefix, or proof that there is none. |
| Fitting.FitPrefix | crates/maestro-canonicalization/src/chunk_split/prepare.rs:235-267 | The first half that fits, moved back to the last preferred cut only when that fits too; nothing only where every half down to one scalar was refused; at most floor(log2 n) + 2 probes; the exact outcome for every answer of the counter. |
| Slices.SliceMappings | crates/maestro-canonicalization/src/chunk_mapping/slice.rs:16-75 | The single pass refuses exactly the units whose runs do not partition their text or are not what their origins promise, and otherwise clips each run. |
| Slices.SliceTiles | crates/maestro-canonicalization/src/chunk_mapping/slice.rs:16-75 | Every slice partitions the requested range, from offset 0, into nonempty runs. |
| Slices.ClipJustified | crates/maestro-canonicalization/src/chunk_mapping/slice.rs:52-69 | A narrowed exact copy still equals the Markdown at its narrowed origin, in the same block and moved by as much as the text; transformed runs keep whole origins. |
| Slices.PartMaps | crates/maestro-canonicalization/src/chunk_mapping/slice.rs:16-75 | A part with its slice maps back to the source like the unit did. |
| Slices.SliceCompose | crates/maestro-canonicalization/src/chunk_mapping/slice.rs:16-75 | Slicing a slice equals slicing once with shifted offsets, results and refusals alike. |
| Preparation.SplitLines | crates/maestro-canonicalization/src/chunk_split/context.rs:329-358 | The lines of a stretch tile it, each ending after a line break or at the end. |
| Preparation.AppendLines | crates/maestro-canonicalization/src/chunk_split/context.rs:336-356 | The appending loop makes one part of every line, with the indentation of continued lines, or stops at the first refusal. |
| Preparation.AppendSource | crates/maestro-canonicalization/src/chunk_split/context.rs:329-358 | A contribution becomes its line parts, in order. |
| Preparation.PlaceParts | crates/maestro-canonicalization/src/chunk_split/prepare.rs:143-155 | Part ranges are set in place so that they tile the prepared input, and both texts are the concatenations of their parts. |
| Preparation.Prepare | crates/maestro-canonicalization/src/chunk_split/prepare.rs:117-186 | The whole preparation equals its specification: context, body parts, ranges, texts, windows and count, with every refusal; `Reading.PreparedReads` says what it reads as. |
| Reading.PreparedReads | crates/maestro-canonicalization/src/chunk_split/prepare.rs:19-186 | A prepared chunk reads as its fragments: before each, a line break where the list item changes, an indented blank line between blocks of one item, nothing inside a block; before an item's first fragment its marker, indented by its depth; a table once, at its first row, its cells with tabs and its rows with line breaks between them. The prepared input is the context's text, a blank line where there is any, and this; the body text is the same without markers and repeated delimiters. |
| Reading.LayRead | crates/maestro-canonicalization/src/chunk_split/prepare.rs:19-111 | The same of any list of contributions laid out, one after the other. |
| Reading.LastInTableIs | crates/maestro-canonicalization/src/chunk_split/prepare.rs:44-58 | After a table the laying out goes on from the last fragment that lies in one. |
| Reading.ContextRead | crates/maestro-canonicalization/src/chunk_split/prepare.rs:117-142 | The context's text is its entries', a table header column by column, with their separators. |
| Reading.ContainersExactly | crates/maestro-canonicalization/src/chunk_split/prepare.rs:156-183 | A chunk names every block around its fragments, each once, those of earlier fragments first. |
| Parts.PartsExactly | crates/maestro-canonicalization/src/chunk_split/prepare.rs:117-186 | The parts of a chunk are its context's and then its body's. Each is formatting or names one stretch of source: in the context text of a unit that an entry lists, in that entry's role; in the body a line of one of its fragments as source, a delimiter of one repeated as structural context, or a whole list marker. |
| Splitting.SplitUnit | crates/maestro-canonicalization/src/chunk_split/layout.rs:325-396 | Exactly the pieces cut off one after the other until the end is reached, each a normalized range that counts at most 700. Let `end` be the first half of the rest that fits: if it is all of it, so is the piece; otherwise the piece ends at the last sentence end or code line before `end` where that fits, or, where the rest has none, at the last whitespace. Refused as oversized only where one scalar with its context does not fit. |
| Splitting.CutOff | crates/maestro-canonicalization/src/chunk_split/layout.rs:338-391 | One turn: the piece is the prepared chunk of that length, and outside code, where it would end inside a word, of the last whitespace before when that piece fits too. |
| Splitting.LengthChosen | crates/maestro-canonicalization/src/chunk_split/layout.rs:338-372 | The length of a piece, told by the counter's answers on the halves of the rest and by the cuts in it, whatever the search does. |
| Splitting.FitsExactly | crates/maestro-canonicalization/src/chunk_split/layout.rs:346-365 | A length fits if and only if its stretch may be held, as a normalized range under the same windows, and its chunk counts at most 700. |
| Conservation.SplitConserves | crates/maestro-canonicalization/src/chunk_split/layout.rs:325-396 | The pieces of a clean stretch hold exactly its characters, in order, each between two clean cuts and within 700 tokens. |
| Conservation.FragmentBalanced | crates/maestro-canonicalization/src/chunk_split/context.rs:430-472 | The parts that a normalized fragment is prepared as show a balanced word of delimiters, line by line, if and only if no closing delimiter starts at the fragment's start. |
| Refining.RefinedSmaller | crates/maestro-canonicalization/src/chunk_split/layout.rs:249-270 | Refining returns bodies of less total weight, so refinement ends. |
| Refining.CellsConserveExactly | crates/maestro-canonicalization/src/chunk_split/layout.rs:272-300 | Laid out cell by cell a row keeps all its fragments in order if and only if its cells own them all in column order. |
| Refining.RefinedConservesExactly | crates/maestro-canonicalization/src/chunk_split/layout.rs:249-319 | The smaller bodies hold exactly the body's fragments in order, if and only if the body is not a row whose cells own some of them but not all in column order. |
| Refining.RefinedNarrow | crates/maestro-canonicalization/src/chunk_split/layout.rs:249-319 | The smaller bodies are nonempty and are not wide rows again. |
| Atoms.PackAtoms | crates/maestro-canonicalization/src/chunk_split/layout.rs:141-185 | The atoms are runs of whole kept parts of one group, neighbouring atoms differ in group, and together they hold every indexed part once and in order; refusals are those of the first unit that has no place. |
| Atoms.PackRefusedExactly | crates/maestro-canonicalization/src/chunk_split/layout.rs:95-187 | Packing is refused if and only if some indexed unit of a table lies in no cell that its row lists, or in no row that its table lists. |
| Atoms.AtomLosesExactly | crates/maestro-canonicalization/src/chunk_split/layout.rs:249-319 | The smaller bodies of a row's atom hold all its text in order if and only if its fragments all lie directly in cells in column order, or none does. |
| Atoms.MakePieces | crates/maestro-canonicalization/src/chunk_split/ideas.rs:39-57 | Pieces group exactly the consecutive atoms that continue one step. |
| Atoms.PiecesHoldAtoms | crates/maestro-canonicalization/src/chunk_split/ideas.rs:39-57 | The pieces hold exactly the atoms, in order. |
| Packing.SteppedLess | crates/maestro-canonicalization/src/chunk_split/drafts.rs:22-56 | Every turn of the packing loop leaves pending pieces of strictly less weight: an idea weighs more than its atoms, a wide row more than its columns, many fragments more than one. The loop ends whatever the counter answers. |
| Packing.GrowTurn | crates/maestro-canonicalization/src/chunk_split/drafts.rs:25-28 | A turn that grows the open draft keeps every finished draft reproducible from its body and loses no character. |
| Packing.OpenTurn | crates/maestro-canonicalization/src/chunk_split/drafts.rs:40-44 | So does a turn that opens a draft. |
| Packing.RequeueTurn | crates/maestro-canonicalization/src/chunk_split/drafts.rs:70-74 | So does a turn that puts smaller pieces back in front, in order, and it leaves less weight. |
| Packing.SplitTurn | crates/maestro-canonicalization/src/chunk_split/drafts.rs:49-50 | So does a turn that splits the next piece's one unit. |
| Sharing.KeysAgreeExactly | crates/maestro-canonicalization/src/chunk_split/layout.rs:44-65 | Two units have one key if and only if they lie in one section and are enclosed by the same containers, kind by kind. |
| Sharing.SectionIs | crates/maestro-canonicalization/src/chunk_split/layout.rs:33-42 | A unit's section is its own heading if it is one, else its block's section. |
| Sharing.GroupIs | crates/maestro-canonicalization/src/chunk_split/layout.rs:141-187 | A unit's atom is its table row, else its innermost list item or definition description, else its block; its key is that of the unit. |
| Sharing.StepIs | crates/maestro-canonicalization/src/chunk_split/ideas.rs:59-72 | An atom continues a step only by section, inside a list item: the outermost item and the section. |
| Sharing.SharesExactly | crates/maestro-canonicalization/src/chunk_split/layout.rs:202-231 | Two bodies of one place each may share a chunk if and only if all their fragments are of one section, packed by section, or of one key, packed by container, and their windows may follow each other. |
| Sharing.OpensExactly | crates/maestro-canonicalization/src/chunk_split/drafts.rs:40-51 | A piece with no draft open is a draft if it counts up to 700, finished exactly from 500 on; a larger idea gives way to its atoms, a larger atom to its columns or fragments, a single fragment to its split pieces. |
| Sharing.TurnExactly | crates/maestro-canonicalization/src/chunk_split/drafts.rs:22-52 | What a turn does with an open draft: grown exactly where the next piece may share its chunk and both count up to 700, kept open while a larger idea is broken, finished otherwise. |
| Sharing.AfterNear | crates/maestro-canonicalization/src/chunk_split/drafts.rs:13-55 | After any number of turns every open and finished draft is of one section, or of one key, and an open one is short of 500 tokens. |
| Sharing.FinishedShortOnlyWhere | crates/maestro-canonicalization/src/chunk_split/drafts.rs:22-52 | In every run a draft is finished short of 500 tokens only where the next piece lies elsewhere, its windows do not follow, or both make more than 700 tokens. |
| Sharing.AbsorbsExactly | crates/maestro-canonicalization/src/chunk_split/ideas.rs:75-109 | A draft joins the one before if and only if it is under the minimum, may share its chunk, and both count up to 700. |
| Sharing.BuiltNear | crates/maestro-canonicalization/src/chunk_split/drafts.rs:13-67 | Absorbed drafts, too, are of one section or one key each. |
| Drafts.Turn | crates/maestro-canonicalization/src/chunk_split/drafts.rs:22-52 | One turn does exactly what the specification of a turn says, and keeps reproducibility, conservation, the shape of table rows and that every draft is of one place. |
| Drafts.Place | crates/maestro-canonicalization/src/chunk_split/drafts.rs:40-51 | With no draft open the next piece opens one, or is broken, refined or split, keeping the same. |
| Drafts.Shrink | crates/maestro-canonicalization/src/chunk_split/drafts.rs:47-51 | An atom over the maximum is refined, or its one unit split, keeping the same. |
| Drafts.AbsorbSmall | crates/maestro-canonicalization/src/chunk_split/ideas.rs:75-93 | Exactly the drafts under the minimum join the one before when they may; fragments stay in order and every draft stays reproducible within the maximum. |
| Drafts.PackAll | crates/maestro-canonicalization/src/chunk_split/drafts.rs:13-55 | The packing loop equals the specified turns; from regular tables every draft it finishes shows rows in order, several only whole, and shares a row only with parts of that row. |
| Drafts.NumberParts | crates/maestro-canonicalization/src/chunk_split/drafts.rs:57-66 | Every fragment is numbered by how many earlier ones its unit has in the whole document; nothing else changes. |
| Drafts.OrdinalsDoNotMatter | crates/maestro-canonicalization/src/chunk_split/prepare.rs:117-186 | Preparing reads no ordinal: renumbered chunks are still what their bodies make. |
| Drafts.BuildDrafts | crates/maestro-canonicalization/src/chunk_split/drafts.rs:13-67 | Ends for every counter and returns exactly the drafts of the specified turns, absorbed and numbered, or the first refusal. Every draft is at most 700 tokens and is what its own body makes; all its fragments are of one section, with which it is labelled, and packed by container of one key. With clean kept parts and regular rows the drafts hold every indexed character exactly once and in order, and the coverage check accepts them; with steps of one table each, and no clashing rows where small drafts are absorbed, every draft shows its table rows in order. |
| Coverage.ValidateCoverage | crates/maestro-canonicalization/src/chunks/validation.rs:11-59 | The checker with its sorting and cursor equals its specification. |
| Coverage.ExactCovers | crates/maestro-canonicalization/src/chunks/validation.rs:11-59 | Chunks that name exactly the indexed characters in order are accepted, with each unit's fragments as they come. |
| Coverage.AcceptedOnce | crates/maestro-canonicalization/src/chunks/validation.rs:11-59 | Whatever chunks are accepted, every character of a primary unit lies in exactly one fragment when it is indexed and in none when it is chrome. |
| Coverage.AcceptsExactly | crates/maestro-canonicalization/src/chunks/validation.rs:11-59 | Chunks are accepted if and only if every fragment is nonempty text of a primary unit, in order of units and numbered by the earlier ones of its unit, and each unit's fragments hold every character of its kept part once and no other. |
| Coverage.ChromeExactly | crates/maestro-canonicalization/src/chunks/validation.rs:48-57 | A character of a unit is either kept or in exactly one of the ranges reported as left out. |
| Replay.ReplayPart | crates/maestro-canonicalization/src/chunks/validation.rs:155-196 | The replay of one part, every role with its own conditions, equals its specification. |
| Replay.CheckFragmentOrder | crates/maestro-canonicalization/src/chunks/validation.rs:200-234 | The walk with one fragment index and a cursor equals its specification. |
| Replay.ValidateChunk | crates/maestro-canonicalization/src/chunks/validation.rs:87-133 | Replays a chunk's parts, ranges, separators, texts, count and order, as specified. |
| Replay.WitnessChunk | crates/maestro-canonicalization/src/chunk_split/replay.rs:33-73 | Every table fragment has exactly one window that holds its cell, every window is witnessed, and packed by container nothing else shares the chunk; refusals as specified. |
| Replay.ValidateBody | crates/maestro-canonicalization/src/chunk_split/replay.rs:14-31 | Accepts a chunk if and only if its windows are witnessed and in order and preparing its body again gives the same chunk. |
| Replay.ValidateChunks | crates/maestro-canonicalization/src/chunks/validation.rs:87-133 | Accepts exactly the lists of which every chunk replays and is what preparing its own body gives under witnessed windows. |
| Verdicts.AcceptedSound | crates/maestro-canonicalization/src/chunks/validation.rs:87-133 | What acceptance of a chunk means: fragments, at most 700 tokens as counted of its prepared input; parts that lie one after the other in it, each formatting or the very source it names, its own source from primary units; body parts that read as the body text and name exactly the fragments' characters in order; every table fragment in exactly one window, each window with one, over columns of its row, in row order over the same columns, and packed by container no text beside them. |
| Rebuilding.FragmentYields | crates/maestro-canonicalization/src/chunk_split/context.rs:430-472 | The parts of a primary fragment pass their replays and their primary contributions are the fragment's lines, whatever delimiters are repeated. |
| Rebuilding.BodyYields | crates/maestro-canonicalization/src/chunk_split/prepare.rs:19-95 | The parts of any body pass their replays, and their primary contributions are the lines of the order the body is laid out in. |
| Ordering.OrderSound | crates/maestro-canonicalization/src/chunks/validation.rs:200-234 | The order walk accepts only contributions that name the fragments' characters in order. |
| Ordering.OrderComplete | crates/maestro-canonicalization/src/chunks/validation.rs:200-234 | It accepts the lines of a body laid out in its fragments' order. |
| Ordering.OrderDecides | crates/maestro-canonicalization/src/chunks/validation.rs:200-234 | It accepts the laid lines if and only if the body is laid out in its fragments' order. |
| Ordering.PreparedGoes | crates/maestro-canonicalization/src/chunk_split/prepare.rs:117-186 | The parts of a prepared body tile the prepared input, pass the separator and source replays, and rebuild both texts. |
| Ordering.ReplayDecides | crates/maestro-canonicalization/src/chunks/validation.rs:87-133 | The preparer satisfies its replayer: a prepared chunk replays if and only if it lays out its fragments in order; nothing else can fail. |
| Tables.JoinsExactly | crates/maestro-canonicalization/src/chunk_split/structure.rs:27-46 | The windows of two joined bodies are in order if and only if the later body's first row follows the earlier one's last over the same columns, or is the same row and each side with other rows already shows the columns of both. |
| Tables.CombinedTabular | crates/maestro-canonicalization/src/chunk_split/structure.rs:27-46 | Two bodies of text around a run of one table's rows, joined so, are again such a body: every table fragment in a window, row by row and column by column. |
| Tables.RefinedTabular | crates/maestro-canonicalization/src/chunk_split/layout.rs:249-319 | Refining a row keeps that shape, and every smaller body stays in its row. |
| TableStarts.StartTabled | crates/maestro-canonicalization/src/chunk_split/ideas.rs:39-57 | Where no step holds rows of two tables the loop starts with atoms of different rows and ideas that are whole rows of one table, by container and by section. |
| TableTurns.GrowTabled | crates/maestro-canonicalization/src/chunk_split/layout.rs:233-247 | A turn that grows the open draft keeps text before and after one run of rows in order, every window a whole row or only columns with text. |
| TableTurns.BreakTabled | crates/maestro-canonicalization/src/chunk_split/drafts.rs:70-74 | So does a turn that puts an idea's atoms in its place. |
| TableTurns.RefineTabled | crates/maestro-canonicalization/src/chunk_split/layout.rs:249-319 | A refined row's bodies take its place in that order. |
| TableTurns.SplitTabled | crates/maestro-canonicalization/src/chunk_split/layout.rs:325-396 | The pieces of a split cell keep its row. |
| Absorbing.SpoiledClashes | crates/maestro-canonicalization/src/chunk_split/ideas.rs:75-109 | A small draft that would join in the wrong order shows a clash: a row that ends over the very columns its successor shows so far, and later text of the successor in another column. |
| Absorbing.AbsorbedTabular | crates/maestro-canonicalization/src/chunk_split/ideas.rs:75-109 | Where even rows do not clash, absorbing small drafts leaves every chunk's table rows in order. |
| Absorbing.FilledDoNotClash | crates/maestro-canonicalization/src/chunk_split/ideas.rs:75-109 | Even rows without empty cells do not clash. |
| Refusals.StepMixed | crates/maestro-canonicalization/src/chunk_split/ideas.rs:20-57 | The body of a step with rows of two tables, or of unequal width, shows such rows one after the other. |
| Refusals.MixedStepRefused | crates/maestro-canonicalization/src/chunk_split/replay.rs:77-102 | When a step that fits a chunk holds rows of two tables, some draft shows both through every later turn and join, and the window check refuses it. |
| Acceptance.TabularInOrder | crates/maestro-canonicalization/src/chunk_split/prepare.rs:19-94 | A body of text, one run of table rows and text is laid out in its fragments' order, the table at its first row. |
| Acceptance.TabularWitnessed | crates/maestro-canonicalization/src/chunk_split/replay.rs:33-104 | Every table fragment of such a body falls in exactly one window, every window is witnessed, and windows are in order. |
| Acceptance.AcceptedExactly | crates/maestro-canonicalization/src/chunks/validation.rs:87-133 | A draft passes every check if and only if it lays its fragments out in order under windows that show them: of the replay's conditions only these can fail. |
| Acceptance.MappedIsVisible | crates/maestro-canonicalization/src/chunk_mapping/document.rs:23-56 | Units that mapping built, kept from their start up to a normalized end, are what packing assumes: visible, well nested, between clean cuts. |
| Acceptance.BuildChecked | crates/maestro-canonicalization/src/chunks/build.rs:62-67 | Packing followed by its two checks. Coverage is always accepted. Chunks are accepted for every counter where no step holds rows of two tables and, if small drafts are absorbed, no rows clash; they are refused whenever a step that fits one chunk holds rows of two tables; so where every step fits they are accepted if and only if no step does. |
| RowTexts.RowsPrepared | crates/maestro-canonicalization/src/chunk_split/prepare.rs:19-94 | A body of rows of one-line text is always prepared; its length is that of its cells with a tab between columns and an indented line break between rows. |
| Examples.TwoTablesRefused | crates/maestro-canonicalization/src/chunk_split/ideas.rs:39-72 | A list item with two tables, run through the packer by section, with any minimum or none: one draft, rows of both tables, refused. |
| EmptyCells.EmptyCellRefused | crates/maestro-canonicalization/src/chunk_split/ideas.rs:75-109 | A table with an empty cell, run through the packer by section with the minimum 150 and sixty tokens a character: the second of three drafts is refused. |
| EmptyCells.RegularButClashing | crates/maestro-canonicalization/src/chunk_split/ideas.rs:75-109 | That table meets every other condition; only its rows clash. |
| LostText.GapInRow | crates/maestro-canonicalization/src/parse.rs:164-175 | Source that a row dropped is inserted into the row, after its cell. |
| LostText.StrayRefused | crates/maestro-canonicalization/src/chunk_split/layout.rs:95-139 | A row with source kept after its cell is never packed, whatever the rules and the counter; the kept source is a container of its own. |
| LostText.NestedIsLost | crates/maestro-canonicalization/src/chunk_split/layout.rs:249-300 | A row with a paragraph nested in a cell, run through the packer under either packing: the paragraph is in no draft and coverage refuses. |
| Accounting.Gather | crates/maestro-canonicalization/src/accounting.rs:26-49 | Claims are collected block by block, spans before inline content; `Roles.VerdictDecided` says what they hold. |
| Accounting.GatherInline | crates/maestro-canonicalization/src/accounting.rs:109-132 | An inline node's claims come before its descendants'; `Roles.InlineClaimed` says which nodes claim what. |
| Accounting.Endpoints | crates/maestro-canonicalization/src/accounting.rs:50-60 | The endpoint index holds at each position exactly the claims that start and end there, and both ends of the source. |
| Accounting.Winner | crates/maestro-canonicalization/src/accounting.rs:61-72 | The last of the ordered active set is the claim that wins over every other active one. |
| Accounting.EndpointClaims | crates/maestro-canonicalization/src/accounting.rs:64-74 | Between the ends of the source an endpoint touches a claimed character, so unclaimed stretches are maximal. |
| Accounting.Account | crates/maestro-canonicalization/src/accounting.rs:25-105 | Segments are nonempty, contiguous and tile the source, neighbours differ, and each character has the role and owner of its best claim - highest rank, then narrowest, then highest index - or the unclaimed rule. |
| Accounting.LedgerUnique | crates/maestro-canonicalization/src/accounting.rs:25-105 | That definition leaves no choice: any two ledgers that meet it are equal, so the sweep refines it exactly. |
| Roles.InlineClaimed | crates/maestro-canonicalization/src/accounting.rs:107-132 | The claims of an inline tree are exactly those of its links and images, HTML, empty math and leaves, each with its role. |
| Roles.VerdictDecided | crates/maestro-canonicalization/src/accounting.rs:25-132 | Each character has the role and owner of the stretch that prevails over it in the document: raw and HTML blocks, then metadata and definitions, inline HTML, leaves, links and images, other blocks; of equals the narrowest, then the last block's. Without one it has no owner. |
| Roles.LeafIsContent | crates/maestro-canonicalization/src/accounting.rs:107-132 | Where inline content nests and no metadata, definition, HTML or raw block covers it, a character of a leaf of text, code or nonempty math is parsed content of its block, whatever links, images and wrappers surround it. |
| Roles.MarkupIsUnsupported | crates/maestro-canonicalization/src/accounting.rs:107-132 | There a character of inline HTML is unsupported. |
| Roles.EmptyMathIsSyntax | crates/maestro-canonicalization/src/accounting.rs:107-132 | There a character of empty math is syntax. |
| Roles.RestOfLinkIsReference | crates/maestro-canonicalization/src/accounting.rs:107-132 | There what the leaves inside it leave of a link or an image is a reference. |
| Roles.RestOfBlockIsSyntax | crates/maestro-canonicalization/src/accounting.rs:26-49 | There what inline content leaves of a block is syntax, owned by the innermost block. |
| Roles.OpaqueIsUnsupported | crates/maestro-canonicalization/src/accounting.rs:26-49 | Every character of a raw or HTML block is unsupported, whatever else lies there. |
| Roles.DefinitionIsReference | crates/maestro-canonicalization/src/accounting.rs:26-49 | Every other character of a metadata block or a reference definition is a reference. |
| Roles.UncoveredIsUnowned | crates/maestro-canonicalization/src/accounting.rs:64-74 | Source that nothing covers has no owner and is syntax or unaccounted. |
| Assembly.MakeInline | crates/maestro-canonicalization/src/assemble.rs:178-187 | Inline conversion is refused exactly at a block inside inline content. |
| Assembly.Builder.constructor | crates/maestro-canonicalization/src/assemble.rs:15-29 | A builder starts with an empty document. |
| Assembly.Builder.Siblings | crates/maestro-canonicalization/src/assemble.rs:32-47 | Pushing onto the document in place gives the specified document, children and heading stack. |
| Assembly.Builder.AddBlock | crates/maestro-canonicalization/src/assemble.rs:50-140 | One block with its section, popped and pushed headings and descendants, in place. |
| Assembly.Assemble | crates/maestro-canonicalization/src/assemble.rs:12-21 | The whole document of a node tree, or the refusal. |
| Trees.AssembledStands | crates/maestro-canonicalization/src/assemble.rs:32-140 | The document is the tree it comes from: every tree block stands once in document order with its kind, attributes, span and parent, its inline content as parsed, its children after it in order, and a heading's level and title as a section; there is nothing besides. |
| Sections.ValidateSections | crates/maestro-canonicalization/src/validate/sections.rs:11-70 | The check's findings, in order, equal their specification. |
| Sections.SilentExactly | crates/maestro-canonicalization/src/validate/sections.rs:11-100 | The check reports nothing if and only if every section is of its own heading with a level from 1 to 6, not repeated, at the top or inside an earlier and shallower one with that one's path before its title, and every block has the path of the section it is or lies in. |
| Sections.AssembledValidates | crates/maestro-canonicalization/src/validate/sections.rs:11-100 | On every tree with heading levels 1 to 6 the section check reports nothing about the assembled document. |
| Sections.AssembledScoped | crates/maestro-canonicalization/src/assemble.rs:32-140 | The heading stack against a definition without a stack: each section's parent is the nearest earlier shallower heading of its lexical scope, and headings inside a container never reach its later siblings. |
| Sections.OpenedSound | crates/maestro-canonicalization/src/assemble.rs:68-123 | Opening a block keeps paths, levels and section identifiers consistent with the stack. |
| Hanging.AssembledWired | crates/maestro-canonicalization/src/assemble.rs:32-140 | Every block of an assembled document comes after its parent, which lists it once among its children, and siblings without headings lie in one section. |
| Gaps.CheckUncovered | crates/maestro-canonicalization/src/validate/structure.rs:145-173 | The sorted cursor walk equals its specification. |
| Gaps.UncoveredFinds | crates/maestro-canonicalization/src/validate/structure.rs:145-173 | Every character that is not blank and lies in no valid block span lies in a reported gap. |
| Gaps.UncoveredTrue | crates/maestro-canonicalization/src/validate/structure.rs:145-173 | Every reported gap is a valid nonblank stretch that no block spans. |
| Gaps.UncoveredExact | crates/maestro-canonicalization/src/validate/structure.rs:145-173 | Nothing is reported if and only if every character that is not blank lies in a valid block span. |
| Repair.InsertNode | crates/maestro-canonicalization/src/parse.rs:164-175 | A node is inserted inside the innermost block that holds its span, else in source order. |
| Repair.InsertedInOrder | crates/maestro-canonicalization/src/parse.rs:164-175 | Among nodes in source order the node stands in the innermost block that holds its span, after the siblings that start no later and before the others; nothing else changes, and source order is kept at every level. |
| Repair.PreserveGaps | crates/maestro-canonicalization/src/parse.rs:127-151 | Each distinct reported gap is kept once, in order. |
| Repair.InsertedSpans | crates/maestro-canonicalization/src/parse.rs:164-175 | Inserting adds the node's spans and keeps every other block's. |
| Repair.RepairAdds | crates/maestro-canonicalization/src/parse.rs:127-151 | The repair adds exactly one raw block for every distinct nonempty valid gap and removes nothing. |
| Repair.RepairKeepsText | crates/maestro-canonicalization/src/parse.rs:127-151 | After the repair every nonempty valid gap is a raw block over it that holds its text as it stands in the source, whatever is inserted later. |
| Repair.PreservedInOrder | crates/maestro-canonicalization/src/parse.rs:127-151 | The repair keeps a tree in source order. |
| Pipeline.AssembledSpans | crates/maestro-canonicalization/src/assemble.rs:32-140 | Assembling makes one block over the span of every block of the tree. |
| Pipeline.AssembledBuilds | crates/maestro-canonicalization/src/assemble.rs:178-187 | Assembling succeeds if and only if no inline node holds a block. |
| Pipeline.RepairAssembles | crates/maestro-canonicalization/src/pipeline.rs:95-101 | A tree that assembles still does once gaps are kept in it: the second assembly never refuses. |
| Pipeline.RepairCloses | crates/maestro-canonicalization/src/pipeline.rs:79-102 | Once every uncovered stretch was reported, repair and reassembly leave every nonblank character in a valid block span. |
| Pipeline.CheckSourceLedger | crates/maestro-canonicalization/src/validate/structure.rs:73-107 | The ledger check's number of findings equals its specification. |
| Pipeline.FindingsExactly | crates/maestro-canonicalization/src/validate/structure.rs:73-107 | One finding for every segment that does not follow the one before, holds nothing, leaves the source, says nothing of itself or names an unknown block. |
| Pipeline.LedgerCloses | crates/maestro-canonicalization/src/accounting.rs:25-105 | The ledger of a document that spans its nonblank source has no unaccounted segment, and its owners are blocks of the document. |
| Pipeline.Canonicalize | crates/maestro-canonicalization/src/pipeline.rs:79-105 | Succeeds if and only if no inline node holds a block; then the uncovered check and the ledger check report nothing on the final document and no segment is unaccounted. The spans of its blocks are those of the first assembly and, once each, the nonempty valid stretches that were reported or left uncovered. |
| Mapping.DrawText | crates/maestro-canonicalization/src/chunk_mapping/document.rs:245-307 | The mapper's renderer appends exactly the plain renderer's text for every inline tree. |
| Drawing.DrawsPieces | crates/maestro-canonicalization/src/chunk_mapping/document.rs:208-307 | An inline tree is drawn as its pieces in order: leaves as they read, the delimiters of strikethrough, superscript and subscript around their content, an image's destination after its text. Each piece is one run from the node's own source, a referenced image's from its definition too, and an exact copy exactly where it equals its only origin; each wrapper has its two delimiters. |
| Drawing.DefinitionIs | crates/maestro-canonicalization/src/chunk_mapping/document.rs:225-243 | A reference comes from the first definition block that holds the span it resolves to. |
| Drawing.DrawnContent | crates/maestro-canonicalization/src/chunk_mapping/document.rs:158-173 | An inline child's unit is made of those pieces, with its wrappers outermost first. |
| Mapping.DrawGrows | crates/maestro-canonicalization/src/chunk_mapping/document.rs:208-307 | Drawing keeps the runs a justified partition of the text and the wrappers nested, pairwise disjoint and with nonempty delimiters. |
| Mapping.DrawnUnit | crates/maestro-canonicalization/src/chunk_mapping/document.rs:158-189 | The two checks on an inline unit - text and mapping - never refuse one, and its wrappers meet the splitter's precondition. |
| Mapping.WholeIsClean | crates/maestro-canonicalization/src/chunk_mapping/document.rs:158-173 | A mapped unit's whole text lies between clean cuts. |
| Mappers.Mapper.constructor | crates/maestro-canonicalization/src/chunk_mapping/document.rs:31-41 | A mapper starts with the blocks by identifier and nothing visited. |
| Mappers.Mapper.Render | crates/maestro-canonicalization/src/chunk_mapping/document.rs:245-307 | The statements that grow a unit in place compute the specified drawing, refusals included. |
| Mappers.Mapper.Push | crates/maestro-canonicalization/src/chunk_mapping/document.rs:176-189 | A unit with text joins the others exactly when its whole text maps back. |
| Mappers.Mapper.InlineUnit | crates/maestro-canonicalization/src/chunk_mapping/document.rs:158-173 | Succeeds if and only if the inline content can be drawn; the unit carries the plain rendering. |
| Mappers.Mapper.Context | crates/maestro-canonicalization/src/chunk_mapping/document.rs:192-204 | A context unit comes from all of the block's spans. |
| Mappers.Mapper.Walk | crates/maestro-canonicalization/src/chunk_mapping/document.rs:75-119 | The recursive walk over fields ends, visits and builds exactly what is specified, never visits a block twice, and leaves sound units, one a field. |
| Mappers.MapUnits | crates/maestro-canonicalization/src/chunk_mapping/document.rs:23-49 | All units are sound, no two are of one field, and every mapped block's inline content with text has a unit with the plain rendering. |
| Contexts.MappedIntroduces | crates/maestro-canonicalization/src/chunk_mapping/document.rs:75-119 | In a mapped document metadata, reference definitions and breaks have no units; a code block's info, a list item's marker, a quote's `[!alert]` and a note's `[^name]:` are each one unit, not primary, from all of the block's spans, before every other unit of the block and of the blocks under it; every other unit is the drawing of an inline child. |
| Contexts.ItemsMarked | crates/maestro-canonicalization/src/chunk_mapping/document.rs:123-155 | Every mapped list item has exactly one marker, first of all its units: in a list that starts at n, with k items before it among the list's children, the numeral of n + k and ". "; in a bullet list "- ". |
| Contexts.PositionCounts | crates/maestro-canonicalization/src/chunk_mapping/document.rs:137-147 | An item's position is the number of list items before its first place in the list. |
| Contexts.DecimalReads | crates/maestro-canonicalization/src/chunk_mapping/document.rs:148-154 | A number's numeral has digits only, no leading zero, and reads back as the number. |
| Contexts.NumeralDecimal | crates/maestro-canonicalization/src/chunk_mapping/document.rs:148-154 | No other numeral reads as that number. |
| Reaching.SiblingsLaid | crates/maestro-canonicalization/src/assemble.rs:32-140 | Assembling lays blocks out so that every subtree is a stretch of them and children's parents are right. |
| Reaching.WalkCovers | crates/maestro-canonicalization/src/chunk_mapping/document.rs:75-119 | A block's walk visits exactly its stretch, and goes through if and only if the content of every block in it can be mapped. |
| Reaching.AssembledMapsExactly | crates/maestro-canonicalization/src/chunk_mapping/document.rs:23-49 | A document that assembling made is mapped if and only if every block's own content can be; how blocks hang together never refuses it. |
| WalkOrder.MappedRun | crates/maestro-canonicalization/src/chunk_mapping/document.rs:75-119 | The units of every subtree are one run, and units come in the order of their blocks but for a block's own after those inside it. |
| Indexing.Ancestry | crates/maestro-canonicalization/src/chunk_split/structure.rs:115-132 | The walk up from a unit's block, reversed, is its path from the outermost block; a missing parent or one met twice is refused. |
| Indexing.NewLayout | crates/maestro-canonicalization/src/chunk_split/structure.rs:84-111 | The layout of a document: its blocks by identifier and the path of every unit, or the first refusal. |
| Indexing.PathIs | crates/maestro-canonicalization/src/chunk_split/structure.rs:115-132 | In a document that hangs together every block has a path, by parents that come before it. |
| DocumentTables.InTableExactly | crates/maestro-canonicalization/src/chunk_split/layout.rs:95-110 | A unit lies in a table if and only if its block is a cell. |
| DocumentTables.CellPlace | crates/maestro-canonicalization/src/chunk_split/layout.rs:95-139 | A cell's unit has one window: its table, the place of its row in the table and of the cell in the row. |
| DocumentTables.ReadyIsRegular | crates/maestro-canonicalization/src/chunk_split/layout.rs:67-187 | In the layout of a document whose tables are shaped as the parser shapes them, table text is cell text, comes in one run a table, row by row and column by column, and shares atoms with its row only. |
| DocumentTables.DocumentIsReady | crates/maestro-canonicalization/src/chunk_split/structure.rs:84-132 | The layout of an assembled and mapped document exists and is one of those. |
| Chunking.LayoutIsSound | crates/maestro-canonicalization/src/chunk_split/structure.rs:84-132 | The layout of an assembled and mapped document with such tables, kept from the units' starts, meets every condition that packing states. |
| Chunking.ChunkTree | crates/maestro-canonicalization/src/chunks/build.rs:62-67 | A parsed tree assembled, mapped, indexed, packed and checked: refused before packing only where assembling or mapping refuses it; coverage always accepted; chunks accepted for every counter where no step holds rows of two tables and no rows clash under a minimum, and exactly there where every step fits a chunk. |
| Ledger.CheckRepresented | crates/maestro-canonicalization/src/chunk_mapping/slice.rs:157-172 | The greedy cursor equals its specification. |
| Ledger.RepresentedExactly | crates/maestro-canonicalization/src/chunk_mapping/slice.rs:157-172 | It accepts overlapping origins if and only if the primary ones cover every character of the span. |
| Ledger.GroupByOwner | crates/maestro-canonicalization/src/chunk_mapping/slice.rs:84-92 | The owner index holds every origin of every unit under its block, in order. |
| Ledger.MapAccounting | crates/maestro-canonicalization/src/chunk_mapping/slice.rs:79-153 | The loop over ledger entries equals its specification, refusals included. |
| Ledger.AccountedExactly | crates/maestro-canonicalization/src/chunk_mapping/slice.rs:79-153 | Mapping the ledger succeeds if and only if the segments follow each other through the whole source, say what they are, name known blocks, and parsed or unsupported content outside metadata and definitions lies whole in origins of primary units from its block. Each entry then says what becomes of its segment and exactly which units overlap it. |
| Ledger.MapDocument | crates/maestro-canonicalization/src/chunk_mapping/document.rs:23-56 | When it succeeds the entries tile the source and every character of every eligible entry lies in an origin of a primary unit from that entry's block. |
| TablePacking.CompleteTable | crates/maestro-canonicalization/src/unit_graph/table_packing.rs:82-120 | The loops compute the complete unit, its parts sorted and renumbered. |
| TablePacking.CompleteExactly | crates/maestro-canonicalization/src/unit_graph/table_packing.rs:82-120 | A complete unit holds the primary parts of its units and no others, numbered in the order in which their earliest positions come. |
| TablePacking.UnitStartIs | crates/maestro-canonicalization/src/unit_graph/group_helpers.rs:314-321 | A unit starts where the earliest of its parts does, or after everything without one. |
| TablePacking.IndexUnits | crates/maestro-canonicalization/src/unit_graph/table_packing.rs:38-44 | The index lists exactly the positions of each block's units, in order. |
| TablePacking.CacheSelects | crates/maestro-canonicalization/src/unit_graph/table_packing.rs:45-63 | At each table the positions looked up before anything was packed select exactly the units a fresh lookup by block would. |
| TablePacking.PackKeepsPlaces | crates/maestro-canonicalization/src/unit_graph/table_packing.rs:68-76 | Packing one table, which removes, appends and sorts, leaves the units of all tables before it in place and the list sorted. |
| TablePacking.PackTables | crates/maestro-canonicalization/src/unit_graph/table_packing.rs:24-79 | The cached right-to-left packing equals packing with a fresh lookup for every table, whatever the counter answers. |
| TablePacking.PackedExactly | crates/maestro-canonicalization/src/unit_graph/table_packing.rs:24-79 | A table becomes one complete unit if and only if it has units and they fit together; the units of every other table and all other units are left, in order; packing fails exactly where the counter does on some table. |
| TablePacking.PackedOwns | crates/maestro-canonicalization/src/unit_graph/table_packing.rs:24-79 | Packing conserves the collection of primary parts of all units, up to their numbering. |
| GroupLinks.ListParents | crates/maestro-canonicalization/src/unit_graph/group_links.rs:39-52 | The parent index holds for each listed unit its least candidate by priority and identifier. |
| GroupLinks.SetParents | crates/maestro-canonicalization/src/unit_graph/group_links.rs:53-55 | Parents are set in place from that index. |
| GroupLinks.GatherChildren | crates/maestro-canonicalization/src/unit_graph/group_links.rs:73-81 | The children index holds for each parent the groups and units whose parent it is. |
| GroupLinks.AllStarts | crates/maestro-canonicalization/src/unit_graph/group_links.rs:64-72 | Each group and unit starts where its earliest source does, units after groups. |
| GroupLinks.SetChildren | crates/maestro-canonicalization/src/unit_graph/group_links.rs:82-93 | Children are replaced in place by the sorted, deduplicated gathered lists. |
| GroupLinks.WireParentage | crates/maestro-canonicalization/src/unit_graph/group_links.rs:38-94 | Both arrays end up exactly as specified from their old contents. |
| GroupLinks.LinksReciprocal | crates/maestro-canonicalization/src/unit_graph/group_links.rs:38-94 | A group or unit is a group's child if and only if that group is its parent; no child appears twice; children are in source order. |
| GroupLinks.ChildrenInOrder | crates/maestro-canonicalization/src/unit_graph/group_links.rs:64-93 | A group's children stand in the order of their first source position, and by identifier where they start alike. |
| GroupLinks.OneParent | crates/maestro-canonicalization/src/unit_graph/group_links.rs:38-94 | No child is under two parents. |
| GroupLinks.UnitParent | crates/maestro-canonicalization/src/unit_graph/group_links.rs:38-55 | A unit's parent is the narrowest of the groups that listed it - a row before a table, procedure, code or paragraph group, that before a section, that before a page - and of kinds alike the smallest identifier; none if and only if none did. |
| GroupLinks.WiringAgain | crates/maestro-canonicalization/src/unit_graph/group_links.rs:38-94 | Wiring what is wired changes nothing. |
| Grouping.Admit | crates/maestro-canonicalization/src/dedup.rs:126-143 | Scope and revisions are admitted as specified: each authorized, none twice. |
| Grouping.GroupExact | crates/maestro-canonicalization/src/dedup.rs:121-197 | The loops over inputs and the map of classes compute the specified grouping or its first refusal. |
| Grouping.SharedExactly | crates/maestro-canonicalization/src/dedup.rs:121-253 | For each representation two occurrences share a class if and only if their bytes are equal, with no assumption on the hash. |
| Grouping.OneClass | crates/maestro-canonicalization/src/dedup.rs:121-253 | Each occurrence is in exactly one class of each representation, and classes list theirs in increasing order. |
| Grouping.OrderDoesNotMatter | crates/maestro-canonicalization/src/dedup.rs:121-197 | Every permutation of the inputs gives the same result. |
| Grouping.SucceedsExactly | crates/maestro-canonicalization/src/dedup.rs:121-253 | Grouping succeeds if and only if tenant and workspace are named, all revisions are authorized and distinct, every input replayed without errors, hashes as recorded and, under the strict policy, has no warnings, and no two of one hash have different bytes; its occurrences are the inputs in order of document and revision. |
| SnapshotSafety.StepSafe | crates/maestro-canonicalization/src/store.rs:143-180 | Every step of any writer, crash or loss of power keeps the invariant, and a writer's step leaves all that is not its own. |
| SnapshotRuns.RunSafe | crates/maestro-canonicalization/src/store.rs:143-180 | The invariant holds in every interleaving of any number of writers, with crashes and losses of power at any step: what is published is complete. |
| SnapshotRuns.PublishedForever | crates/maestro-canonicalization/src/store.rs:143-180 | A published file's bytes never change while the power holds. |
| SnapshotRuns.RemovesOwn | crates/maestro-canonicalization/src/store.rs:161-180 | A name goes only when its own writer removes its own pending file. |
| SnapshotRuns.RunConsistent | crates/maestro-canonicalization/src/store.rs:28-43 | Every writer that succeeded saved exactly the published bytes, two that saved different bytes never both succeed, and the document is visible only beside the original it was saved with. |
| SnapshotRuns.SurvivesExactly | crates/maestro-canonicalization/src/store.rs:130-180 | A consistent state survives every loss of power if and only if the entries it relies on are flushed. |
| SnapshotRuns.RunSurvivesExactly | crates/maestro-canonicalization/src/store.rs:130-180 | A run survives every loss of power at every point if and only if none of its steps publishes the document before its original's entry is flushed, or ends in success before both entries are. |
| SnapshotRuns.BorrowedOriginalIsNotFlushed | crates/maestro-canonicalization/src/store.rs:130-159 | A run in which a writer meets an original whose entry is not flushed yet and publishes the document beside it: the document is then visible while its original can still be lost. |
| SnapshotRuns.PatientRunSurvives | crates/maestro-canonicalization/src/store.rs:130-180 | When every file that is met is already flushed, all of the above holds through losses of power too. |
| SnapshotRuns.AloneSaves | crates/maestro-canonicalization/src/store.rs:143-180 | A writer that is not disturbed publishes its file, flushed, in eight steps, and moves on to the next. |
| Artifacts.Get | crates/maestro-kernel/src/artifact/store.rs:137-159 | Bytes are returned only when they hash to the digest, whatever the files hold. |
| ArtifactSafety.StepSafe | crates/maestro-kernel/src/artifact/store.rs:92-125 | Every step but a foreign one keeps every stored file whole and every pending file apart. |
| ArtifactSafety.LossSafe | crates/maestro-kernel/src/artifact/store.rs:92-125 | So does a loss of power: every remaining entry was whole, and no flushed entry is missing. |
| ArtifactSafety.NeverCorrupt | crates/maestro-kernel/src/artifact/store.rs:92-159 | Without a foreign hand every file at an artifact path hashes to its name at all times. |
| ArtifactSafety.PutLasts | crates/maestro-kernel/src/artifact/store.rs:92-159 | Once a put returned, every later get of that digest succeeds, through crashes and losses of power. |
| ArtifactSafety.PutThenGet | crates/maestro-kernel/src/artifact/store.rs:92-159 | With a hash that tells bytes apart those gets return the very bytes that were put. |
| ArtifactSafety.PutRepairs | crates/maestro-kernel/src/artifact/store.rs:92-125 | From any state of the files, damaged ones included, an undisturbed put ends with its bytes stored, readable and flushed. |

## Left out

- Markdown parsing, YAML and JSON serialization, SHA-256 and tokenizers: invisible libraries; the node tree, digests and counts are inputs.
- Page-chrome rules and heading titles stripped of chrome: each unit's kept part is an input, and a chunk's heading path is not modelled.
- `SplitKind` labels, error wording and the detail that names an oversized unit's block.
- Which context entries a body gets: an arbitrary function; how their parts are prepared and replayed is modelled.
- Block checks that report table losses: they enter canonicalization as an arbitrary list of reported spans.
- Links, asset references, extractor blocks and retrieval text of assembled blocks; a heading's title is a function of its node.
- Loading a saved snapshot, replay verification before saving, path walks and link refusal, Windows, where directories cannot be flushed.
- Reads of a published file are one step, and creating directories always succeeds.
- Kernel records in SQLite, settings, command line and service plumbing: short transactions and configuration.
- `order_context_relations` and `assign_family_occurrences`: renumbering that promises no unique ordinals when groups interleave.
- Coverage.AcceptedOnce: acceptance alone says nothing of the order of a unit's fragments, because the checker sorts them; that order comes from `Drafts.BuildDrafts`.
- Drafts.AbsorbSmall: a draft that grew is never joined again, so joinable small neighbours may remain, as in the source.
- Drafts.BuildDrafts: conservation assumes kept parts between clean cuts and rows whose text its cells own in column order; without the second the exact condition is `Refining.RefinedConservesExactly`, and `Chunking.LayoutIsSound` derives both for parsed trees.
- Acceptance.BuildChecked: where a step with rows of two tables fits no chunk, or rows clash and small drafts are absorbed, a document is accepted or refused draft by draft (`Acceptance.AcceptedExactly`), depending on the counter.
- Chunking.ChunkTree: assumes tables shaped as the parser shapes them and kept parts from each unit's start to a normalized end; that the parser and the chrome rules give these is not part of this model.
- Preparation.Prepare: the context entries of a body come from an arbitrary function, and the heading path of the chunk is left out.
- Coverage.ValidateCoverage: the rule that a left-out range is attributed to is not in the returned coverage.
- Replay.ValidateChunks: leaves out the comparison of the stored accounting with a fresh one (`chunks/validation.rs:93-95`).
- Assembly.Builder.AddBlock: links, asset references and extractor blocks are left out.
- Assembly.Assemble: links, asset references and extractor blocks are left out.
- Pipeline.Canonicalize: findings other than those of the uncovered and ledger checks, warnings and the validation status are left out.
- SnapshotRuns.PatientRunSurvives: one direction; which runs without a loss of power survive is `SnapshotRuns.RunSurvivesExactly`.
- GroupLinks.WireParentage: the source walks its index maps in key order, the model in list order; the final sort makes the results equal.
- Mapping.DrawnUnit: where several definition blocks hold one span the model names the first in document order, the source the first by identifier.
- Reaching.AssembledMapsExactly: assumes that blocks which are not mapped (metadata, reference definitions, breaks) hold no blocks, as the parser builds them.
- Sections.AssembledValidates: heading levels 1 to 6 are assumed, the only ones Markdown has.
- Roles.LeafIsContent: assumes that inline content nests, children inside parents and apart from each other, and that HTML and math have no content of their own, as the parser builds them; `Roles.VerdictDecided` needs neither. The same holds for `Roles.MarkupIsUnsupported`, `Roles.EmptyMathIsSyntax`, `Roles.RestOfLinkIsReference` and `Roles.RestOfBlockIsSyntax`.
- Reading.PreparedReads: assumes that units and kept parts hold text and that delimiters are not empty, which `Acceptance.MappedIsVisible` derives for mapped units.
- Repair.InsertedInOrder: assumes a tree in source order, as the parser builds it; the sort leaves no other choice of place then.
- TablePacking.PackedExactly: assumes that the identity of a complete table, a digest, is that of no unit and of no other table.
- Coverage.AcceptsExactly: assumes kept parts that do not end before they start.
