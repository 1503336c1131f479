# darkmux: the cancellation protocol and the CI gates

A Dafny model of four parts of darkmux, and proofs about them.

- **The ACP host's cancellation and idle exit** (`src/acp.rs`). `CancelRegistry`
  is the mutex-held map of in-flight prompts as a class; `CancelProtocol` runs it
  in every interleaving of arrivals, checks, spawns, attaches, cancels, closes,
  settlements and drops, and judges it by two readings of the run that never look
  at the registry: which tickets are live, and which a cancel found live.
  `IdleExit` is the activity mark, the counter, the latch and the exit loop, each
  atomic load a step of its own. `AcpHandlers` is the two handlers that drive both.
- **The platform splitter and the mutation floor** (`scripts/ci-mutants-summary.py`,
  with `scripts/rust_source.py` and the blanking scans of `src/cli_json.rs`).
  `RustText` and `RustLexer` read Rust characters, and `RustLiterals` says from
  alphabets of its own what a literal is; `RustTokens` matches brackets;
  `CfgPredicate` parses and evaluates `cfg(..)` in three values, and `CfgExact`
  says when those are all the builds have to say; `ItemEnd` finds
  where an attributed item ends; `CfgSpans` collects the spans a target does not
  compile. `CfgItems` is a tree of attributed items with its printing and its
  meaning, and `CfgBrackets`, `CfgSites`, `CfgScanPrinted` and `PlatformMutants`
  prove the scan exact on it, from text to verdict; `ModDecls` reads the `mod`
  declarations, `ModulePaths` finds where their modules are, and `ModuleFiles`
  carries them between files. `LexPrinted` writes any tokens out, with comments
  between, as text that lexes back, and `DualModules` does so for a crate that is misread. `RustKeywords` and
  `RustcTarget` hold the tables the script runs with. `BraceDeltas`,
  `ScannersAgree`, `RustBlocks`, `TestRanges` and `RangesAgree` are the other
  scanners and where they agree; `DiffWalk`, `DiffPrinted`, `DiffExact` and
  `DiffTests` the unified-diff walk; `CodeOnly` and `TestItems` the
  position-preserving blanking, and `BlankingAgrees` where it agrees with the lexer.
- **The complexity and CRAP ratchet** (`scripts/complexity-ratchet.py`,
  `scripts/crap-report.py`): `Ratchet`, `Moves` and `Allowances` for one judgement,
  `RatchetRuns` and `CrapRuns` for whole histories, `SpaceTree` for the accounting
  of complexity and `Paint` for the per-line counts.
- **The additive guard** (`scripts/contract-additive-guard.py`): `AdditiveGuard`
  and `SplitTop`.

Loops and classes of the source are methods and classes here, proved against
specification functions; the theorems are lemmas about those functions. Where a
definition would swamp a proof, it is folded behind a predicate with a trigger of
its own (`IsBracketMap`, `At`, `Scans`, `OpenStretch`, `IsLexOf`), with a pair of
lemmas that fold and unfold it.

## Model

| member | source | states |
|---|---|---|
| CancelRegistry.InFlight.constructor | src/acp.rs:299 | the map starts empty, tickets at 1 |
| CancelRegistry.InFlight.ReservePrompt | src/acp.rs:353-361 | appends a fresh reserved entry to the session's list |
| CancelRegistry.InFlight.AttachAbortHandle | src/acp.rs:367-385 | in one entry, a cancelled reservation becomes aborted and the caller must abort; anything else becomes running; a missing entry changes nothing |
| CancelRegistry.InFlight.ReservationCancelled | src/acp.rs:390-396 | true exactly when the ticket's entry is a cancelled reservation |
| CancelRegistry.InFlight.AbortSessionPrompts | src/acp.rs:402-425 | every entry of the session moves as a cancel moves it, running handles are aborted, and the count is of the newly reached |
| CancelRegistry.InFlight.DropTicket | src/acp.rs:339-349 | the ticket's entries leave, and the session's key with the last of them |
| CancelRegistry.FindEntry | src/acp.rs:371-372 | the first entry of a ticket, or none |
| CancelRegistry.Retain | src/acp.rs:343 | the other entries, in order |
| CancelRegistry.CancelTouchesOwnSession | src/acp.rs:402-406 | a cancel leaves other sessions' entries and keys alone |
| CancelRegistry.CancelTwice | src/acp.rs:321-322 | a repeated cancel changes nothing and counts nobody |
| CancelRegistry.CountsPrompts | src/acp.rs:398-401 | with one entry a ticket, the count is the number of prompts newly reached |
| CancelProtocol.HitMeans | src/acp.rs:296-298 | the tickets counted as hit are exactly those some cancel or close found live in its session |
| CancelProtocol.Reached | src/acp.rs:310-425 | in every reachable state the registry is the table of live prompts, handles are distinct, and an attached prompt's handle is aborted exactly when it was hit |
| CancelProtocol.CancelIsExact | src/acp.rs:1540-1576 | an attached prompt is aborted exactly when a cancel or close found its ticket live; a refusal, a pending abort or a Cancelled stop reason implies one did |
| CancelProtocol.StopReasonIsExact | src/acp.rs:1540-1576 | read off the events of the run: a prompt that drops its ticket reports Cancelled exactly when its check came after a cancel or close that found it live or its task was stopped, and EndTurn otherwise; an abandoned one reports nothing |
| CancelProtocol.HitBeforeCheckNeverStarts | src/acp.rs:387-396 | a prompt hit before its pre-check never spawns its work, however the run goes on |
| CancelProtocol.StaleCancelIsHarmless | src/acp.rs:319-320 | a prompt that arrives after its session's last cancel or close is never aborted, refused or reported cancelled |
| CancelProtocol.RegistryMatches | src/acp.rs:291-298 | each live ticket has exactly one entry, each entry a live ticket of that session, and a key exists exactly when the session has a live prompt |
| CancelProtocol.AttachFindsReservation | src/acp.rs:374-383 | attach only ever finds a reservation, a cancelled one exactly for a prompt that was hit, so its catch-all arm never undoes an abort |
| CancelProtocol.CountsAreExact | src/acp.rs:398-401 | the counts all cancels and closes return add up to the number of prompts ever hit |
| CancelProtocol.CancelIsIsolated | src/acp.rs:402-425 | a cancel or close changes no other session's entries or phases and aborts none of its handles |
| AcpHandlers.HandleCancelNotification | src/acp.rs:1482-1495 | stamps activity and strikes the session's prompts |
| AcpHandlers.HandleCloseSessionRequest | src/acp.rs:1497-1518 | stamps activity, strikes the session's prompts and forgets the session, reporting whether it was known |
| IdleExit.HardIdleThreshold | src/acp.rs:656-658 | the larger of a week and 48 windows, the product held at the largest 64-bit number |
| IdleExit.IdleState.RecordActivity | src/acp.rs:596-598 | sets the mark to now and nothing else |
| IdleExit.IdleState.RecordSessionAttached | src/acp.rs:603-606 | latches and stamps |
| IdleExit.IdleState.CommandStarted | src/acp.rs:608-610 | one more in flight |
| IdleExit.IdleState.CommandFinished | src/acp.rs:617-620 | stamps and takes one off |
| IdleExit.IdleState.ShouldIdleExit | src/acp.rs:683-694 | nothing in flight and idle for the window, or for the ceiling once latched |
| IdleExit.MeterIsExact | src/acp.rs:561-620 | in every run the counter is commands started less finished, the mark the last stamp, the latch whether any session ever attached |
| IdleExit.ExitIsDue | src/acp.rs:754-780 | in every run, the loop has exited exactly when the run ends in a check whose own load of the counter found no command running and whose own load of the mark leaves the process unheard for its threshold: the ceiling once any session ever attached |
| IdleExit.ExitIsSilent | src/acp.rs:683-694 | so at an exit the process is that long unheard when the mark is loaded |
| IdleExit.RunningAtExit | src/acp.rs:683-694 | the race that is left: the commands running at an exit are those started after its check's load of the counter and not finished |
| IdleExit.UndisturbedCheckIsExact | src/acp.rs:683-694 | a check nothing interleaves with exits exactly when no command runs and the silence has reached the threshold |
| RustTokens.MatchBrackets | scripts/ci-mutants-summary.py:1977-1991 | the stack walk computes exactly the partner relation given by depth |
| RustTokens.BracketMapInvolution | scripts/ci-mutants-summary.py:1977-1991 | for any tokens the map is an involution without fixed points, from opener to closer |
| RustTokens.BracketMapNested | scripts/ci-mutants-summary.py:1977-1991 | a bracket inside a matched pair is matched inside it |
| RustTokens.PartnerExists | scripts/ci-mutants-summary.py:1977-1991 | an opener whose stretch goes back to its depth has a partner there |
| RustTokens.PartnerUnique | scripts/ci-mutants-summary.py:1977-1991 | and only one |
| CfgPredicate.ParsePredicate | scripts/ci-mutants-summary.py:2003-2033 | the recursive parser with its argument loop computes the specified value and stop |
| CfgPredicate.EvalCfg | scripts/ci-mutants-summary.py:1994-2035 | unknown on an empty range, else the parser's value |
| CfgPredicate.ParseInvertsPrint | scripts/ci-mutants-summary.py:1994-2035 | parsing a printed all/any/not/key/key="value" tree gives its Kleene value and stops exactly at its end |
| CfgPredicate.EvalInvertsPrint | scripts/ci-mutants-summary.py:1994-2035 | evaluating printed tokens gives the tree's value |
| CfgPredicate.DefiniteIsRight | scripts/ci-mutants-summary.py:1770-1775 | a definite answer is the predicate's truth in every build of the target, whatever the undecided atoms |
| CfgExact.ValueIsExact | scripts/ci-mutants-summary.py:1770-1775 | and it is as definite as can be: where no undecided atom stands twice, the value is false exactly when no build of the target satisfies the predicate, and true exactly when every build does |
| CfgExact.EvalIsExact | scripts/ci-mutants-summary.py:1994-2035 | the evaluator gives that answer on the printed tokens |
| CfgExact.TwiceIsUnknown | scripts/ci-mutants-summary.py:1770-1775 | where an atom stands twice it need not: `any(x, not(x))` is unknown |
| CfgExact.MalformedIsUnknown | scripts/ci-mutants-summary.py:1998-2035 | nothing at all, what starts with no word, and `not()` are unknown |
| CfgExact.DeadIffNeverCompiled | scripts/ci-mutants-summary.py:1781-1784 | code under several gates is dead exactly when no build compiles it, where no undecided atom stands twice in them |
| RustcTarget.TestAndFeaturesAreUnknown | scripts/ci-mutants-summary.py:1787-1800 | `test` and features stay undecided for every target, under any nesting of `not` |
| RustcTarget.TargetDecides | scripts/ci-mutants-summary.py:1785-1800 | the keys a target decides, each true as rustc lists it and false otherwise; every other key is undecided |
| ItemEnd.FindItemEnd | scripts/ci-mutants-summary.py:2038-2107 | the index walk computes the specified end |
| ItemEnd.EndStaysInside | scripts/ci-mutants-summary.py:2038-2107 | on balanced tokens, whatever starts there, the element found is balanced and ends inside the enclosing bracket |
| ItemEnd.BraceItemEnd | scripts/ci-mutants-summary.py:1806-1810 | a brace-bodied item ends exactly at its body's closing brace unless an `else` follows |
| ItemEnd.SemiItemEnd | scripts/ci-mutants-summary.py:1804-1805 | a `;` item ends exactly at its first `;` outside every bracket |
| ItemEnd.ChainEnd | scripts/ci-mutants-summary.py:2076-2081 | an `if` chain ends at the brace that closes its last block |
| ItemEnd.ExprItemEnd | scripts/ci-mutants-summary.py:2038-2107 | an expression, field or arm with no brace of its own ends at its `;` or `,`, before the bracket that closes what is around it, or with the file |
| ItemEnd.ExprBlockEnd | scripts/ci-mutants-summary.py:2082-2095 | at a brace, it takes the `;` or `,` after the block, goes on before a `.`, a `?` or an `as` unless it is an arm, and ends with the block otherwise |
| ItemEnd.UnclosedEnd | scripts/ci-mutants-summary.py:2070-2073 | at an opener that nothing closes, an element ends with the file |
| ItemEnd.ModesAre | scripts/ci-mutants-summary.py:2052-2063 | which rule an unqualified element is read by |
| ItemEnd.QualifiedModes | scripts/ci-mutants-summary.py:2045-2063 | and one of qualifiers and no keyword, as `unsafe { .. }` |
| RustKeywords.TablesSettleModes | scripts/ci-mutants-summary.py:1818-1822 | which rule each keyword of the script is read by, and that no word is in two tables |
| RustKeywords.QualifiersArePassed | scripts/ci-mutants-summary.py:1823 | the words passed over before the keyword |
| CfgSpans.EnclosingBraces | scripts/ci-mutants-summary.py:2119-2128 | each token's nearest open brace |
| CfgSpans.SkipAttrs | scripts/ci-mutants-summary.py:2163-2165 | past a stack of outer attributes |
| CfgSpans.MarkAttr | scripts/ci-mutants-summary.py:2147-2169 | what one attribute excludes: nothing unless it is a cfg that is definitely false |
| CfgSpans.FalseCfgIff | scripts/ci-mutants-summary.py:2147-2156 | an attribute counts only as `cfg` and one pair of parentheses holding a definitely false predicate |
| CfgSpans.FalseMarks | scripts/ci-mutants-summary.py:2110-2170 | the scan gathers exactly the specified marks |
| CfgSites.FileExact | scripts/ci-mutants-summary.py:2110-2203 | the marks a tree calls for cover a stretch of code whole when one of the predicates over it is false, and miss it otherwise |
| CfgSites.DeadIsNotCompiled | scripts/ci-mutants-summary.py:1781-1784 | what is covered is compiled in no build of the target |
| CfgScanPrinted.BlockEnd | scripts/ci-mutants-summary.py:2038-2107 | a printed block with any qualifiers ends at the brace that closes its body |
| CfgScanPrinted.LeafEnd | scripts/ci-mutants-summary.py:2038-2107 | a printed leaf item ends at its `;` |
| CfgScanPrinted.ScanFile | scripts/ci-mutants-summary.py:2110-2170 | scanning a printed file makes exactly the marks its tree calls for |
| CfgScanPrinted.ExclusionIsExact | scripts/ci-mutants-summary.py:2110-2203 | on every stretch of code of a printed file of nested attributed items, the scan covers it exactly when its own, an enclosing item's or the file's cfg is false, and then no build of the target compiles it |
| RustLexer.ReadPiece | scripts/ci-mutants-summary.py:1844-1970 | one turn of the lexer reads the piece the specification gives |
| RustLexer.Advance | scripts/ci-mutants-summary.py:1844-1970 | the carried line and column are those of the offset |
| RustLexer.Lex | scripts/ci-mutants-summary.py:1844-1970 | the lexer's tokens with their texts, lines and columns |
| RustLexer.LexInOrder | scripts/ci-mutants-summary.py:1844-1970 | tokens are non-empty, in order, and apart |
| LexPrinted.LexInvertsWritten | scripts/ci-mutants-summary.py:1844-1970 | words, raw words, numbers, signs, strings with escapes, raw strings, char literals and their `b` and `c` forms, written out with blanks and comments between, nested ones included, lex back to themselves, kinds and texts |
| RustLiterals.CharLiteralIff | scripts/ci-mutants-summary.py:411 | a char literal is found exactly where a plain character, a `\c`, a `\xHH` or a `\u{..}` of one to six digits stands between quotes, and nowhere else |
| LexPrinted.CharPiece | scripts/ci-mutants-summary.py:1938-1945 | such a literal, with or without `b`, is one piece of exactly its extent, whatever follows |
| LexPrinted.LoneQuote | scripts/ci-mutants-summary.py:1938-1945 | a quote that opens none is a sign |
| RustText.PosMonotone | scripts/ci-mutants-summary.py:1844-1970 | lines and columns order characters as offsets do |
| RustText.PosIs | scripts/ci-mutants-summary.py:1844-1970 | a line is one more than the newlines before, a column counts from the last of them |
| PlatformMutants.CfgFalseSpans | scripts/ci-mutants-summary.py:2110-2203 | from text to spans: the lexer, the scan, and each mark placed by line and column |
| PlatformMutants.PosEndExact | scripts/ci-mutants-summary.py:2130-2135 | a token's end is just past it, wherever its text is its stretch of the file |
| PlatformMutants.MutantVerdictExact | scripts/ci-mutants-summary.py:2266-2277 | a mutant within a stretch of code, or replacing a whole body, is left out exactly when a predicate over that code is definitely false, so no built mutant is dropped |
| PlatformMutants.LiveStartIsKept | scripts/ci-mutants-summary.py:2266-2277 | a mutant that starts in code no cfg rules out is never left out, wherever it ends |
| PlatformMutants.LeftOutIffNeverBuilt | scripts/ci-mutants-summary.py:2266-2277 | in builds: such a mutant is left out exactly when no build of the target compiles its code, where no undecided atom stands twice over it |
| PlatformMutants.Verdicts | scripts/ci-mutants-summary.py:2266-2277 | the mutants named are exactly those a span or the file's own cfg excludes |
| PlatformMutants.NotBuilt | scripts/ci-mutants-summary.py:2227-2277 | end to end on one file: for every tree its text may print, the mutants of its code are named exactly when that code is dead for the target |
| ModDecls.FindPath | scripts/ci-mutants-summary.py:2186-2201 | the look-back over the visibility and the attributes finds the specified path |
| ModDecls.FindDecls | scripts/ci-mutants-summary.py:2175-2202 | the two loops list every `mod name;` with its inline modules, its path and whether it stands in a false span |
| ModDecls.ChainNests | scripts/ci-mutants-summary.py:2175-2184 | in any lexed file a declaration's chain is of exactly the inline modules around it, each inside the one before |
| ModDecls.UnclosedInline | scripts/ci-mutants-summary.py:2175-2180 | an inline module that nothing closes is around all that follows |
| ModDecls.DeclIsAMod | scripts/ci-mutants-summary.py:2181-2183 | whatever the tokens, what is listed is a `mod`, its name and a `;` |
| ModDecls.PathIsReadIff | scripts/ci-mutants-summary.py:2186-2201 | the path read off a printed `mod name;`, below an inner attribute or not, is the topmost its attributes give exactly when they give none, or no path stands in its visibility (as in `pub(in a::b)`) and the attribute does not open the file (or the next one says the same) |
| ModDecls.PlainVisibilities | scripts/ci-mutants-summary.py:2186-2189 | `pub`, `pub(crate)`, `pub(in super)` and their like hide no path |
| ModDecls.PathVisibility | scripts/ci-mutants-summary.py:2186-2189 | `pub(in a::b)` hides every path |
| ModDecls.FirstPathIsLost | scripts/ci-mutants-summary.py:2190-2201 | a `#[path]` whose `#` is the first token of the file, which is not read |
| ModDecls.DeclIsExact | scripts/ci-mutants-summary.py:2181-2183 | a `mod name;` in a file's code is listed, as false exactly when a predicate over that code is definitely false |
| ModDecls.SpotIsRead | scripts/ci-mutants-summary.py:2175-2202 | every `mod name;` of a printed tree is listed with its name and inline modules, the path `PathIsReadIff` settles, and the falseness of the code it stands in |
| ModulePaths.FindTargets | scripts/ci-mutants-summary.py:2206-2224 | the loop over the inline modules finds the specified targets |
| ModulePaths.ShownReadsBack | scripts/ci-mutants-summary.py:2213-2224 | a path shown as text reads back as the same path |
| ModulePaths.StemIs | scripts/ci-mutants-summary.py:2213-2224 | a name is cut at its last dot unless nothing stands before or after it |
| ModulePaths.ChildOfRoot | scripts/ci-mutants-summary.py:2213-2224 | a `lib.rs`, `main.rs`, `mod.rs` or `build.rs` looks for a module, inside inline modules or not, exactly where that module's two layouts put it |
| ModulePaths.ChildOfProgram | scripts/ci-mutants-summary.py:2213-2224 | and so does any file directly in `bin`, `tests`, `benches` or `examples` |
| ModulePaths.ChildOfFile | scripts/ci-mutants-summary.py:2213-2224 | and so does the file of a module in the other layout, unless its own name or its directory's makes it look like a root |
| ModulePaths.PathInRoot | scripts/ci-mutants-summary.py:2213-2224 | in a root, a `#[path]` is taken from its directory, or from the directory of the inline modules around the declaration |
| ModulePaths.PathInFile | scripts/ci-mutants-summary.py:2213-2224 | in the file of a module, from the file's own directory, or inside inline modules from below the module's |
| ModulePaths.AbsolutePath | scripts/ci-mutants-summary.py:2213-2224 | an absolute path is taken as it is |
| ModulePaths.BelowIff | scripts/ci-mutants-summary.py:2253-2264 | a shown path begins with a shown directory and a slash exactly when it is below it, component by component |
| ModuleFiles.PlatformNotBuilt | scripts/ci-mutants-summary.py:2227-2277 | over the texts of all files, with the source's own targets: a mutant is named exactly when it can be placed and its span, its file's own cfg, or a false declaration that no other makes up for excludes it; unreadable files are reported |
| ModuleFiles.LiveModIsKept | scripts/ci-mutants-summary.py:2253-2264 | from text to verdict: a `mod name;` of the tree a readable file prints, in code no cfg rules out and with no path or one that is read, is listed with its own inline modules and path, and the files that declaration names are left out by their own scans alone, whatever other declarations and directories say |
| ModuleFiles.ModIsKeptIff | scripts/ci-mutants-summary.py:2253-2264 | a live `mod` keeps its files, wherever they may be, exactly when its path is read, or another `mod` of the file says the same, or nothing is declared false |
| ModuleFiles.ReachesItsOwn | scripts/ci-mutants-summary.py:2253-2264 | a module's targets reach exactly its own file and what is in its directory |
| ModuleFiles.DeadModIsLeftOut | scripts/ci-mutants-summary.py:2253-2264 | from text to verdict: a module declared in dead code takes its file and its directory out with it, unless a declaration that is not false reaches the file |
| DualModules.BothFilesOk | scripts/ci-mutants-summary.py:1818-1823 | at the script's own tables the grammar has files of the shapes it is for: a cfg'd public function, and one file declared once per platform |
| DualModules.CompiledFileIsDropped | scripts/ci-mutants-summary.py:2191-2199 | where a crate's first token is the `#` of the `#[path]` of its unix `mod`, on a unix target every mutant of that module's file is left out, though the module is compiled |
| BraceDeltas.Step | scripts/ci-mutants-summary.py:453-556 | one turn of the scan, and the line breaks inside it, escaped ones included |
| BraceDeltas.BraceDeltasPerLine | scripts/ci-mutants-summary.py:414-557 | each line's opens and closes are exactly the braces on it read as code |
| BraceDeltas.BreakParts | scripts/ci-mutants-summary.py:446-447 | the ten characters that end a line |
| ScannersAgree.ScannersAgree | scripts/ci-mutants-summary.py:414-557 | on text with no nested block comment and no word glued to a raw string, both scanners give the same braces on every line |
| ScannersAgree.NestedCommentMisread | scripts/ci-mutants-summary.py:443-450 | a nested comment on which they differ |
| ScannersAgree.GluedPrefixMisread | scripts/ci-mutants-summary.py:494-508 | a word ending in `r` before a quote on which they differ |
| RustBlocks.Skip | scripts/rust_source.py:20-39 | the token that starts there, or none |
| RustBlocks.ByteRawIsOne | scripts/rust_source.py:20-39 | a `b` is part of the raw string it marks |
| RustBlocks.BlockEnd | scripts/rust_source.py:42-52 | the depth walk computes the specified end |
| RustBlocks.BlockEndIsMatch | scripts/rust_source.py:42-52 | where both files read every quote alike, a block ends just past the brace that closes it among those the line scan reads as code |
| RustBlocks.LooseIff | scripts/rust_source.py:10-11 | a char literal is read exactly where an escape with up to eight characters more, or one character, stands between quotes |
| RustBlocks.SameQuotesIff | scripts/rust_source.py:38-39 | the two files read every quote alike exactly when each opens a literal as Rust spells one, or nothing this file takes for one |
| TestRanges.TestModuleRanges | scripts/ci-mutants-summary.py:560-629 | the line walk with its stack computes the specified ranges |
| TestRanges.RangesNest | scripts/ci-mutants-summary.py:560-629 | for any lines the ranges are pairwise nested or apart, and within the file |
| TestRanges.RangesAreReturns | scripts/ci-mutants-summary.py:560-629 | where depth never falls below a header's before its block returns, the ranges are exactly each header that opens a block to the first line whose depth is back, and each other cfg(test) item's own line |
| TestRanges.RangesAre | scripts/ci-mutants-summary.py:560-629 | and for any lines whatever, each header that opens a block to the line the walk's stack closes it on, and each other cfg(test) item's own line |
| RangesAgree.DepthIsNet | scripts/ci-mutants-summary.py:588-600 | line-summed depth is the net of the braces above |
| RangesAgree.RangeIsBlock | scripts/rust_source.py:55-64 | a header's range is its character-level block exactly when the line the block closes on does not open again above the header's depth |
| RangesAgree.UnclosedHasNoRange | scripts/rust_source.py:42-52 | a block the text never closes has no range and its walk runs off the end |
| DiffWalk.CountAddedLines | scripts/ci-mutants-summary.py:986-1046 | the walk's two totals are those of the specified walker |
| DiffWalk.OthersMoveNothing | scripts/ci-mutants-summary.py:1005-1046 | a removed line, a header cut short and every other kind of line leave the walk where it was |
| DiffWalk.NarrowingOnlyExcludes | scripts/ci-mutants-summary.py:961-1046 | under a narrower reachability the same lines are added and no more count, at every point of the walk |
| DiffWalk.CountChangedLines | scripts/ci-mutants-summary.py:1192-1199 | the structure, manifest and listing exclusions are each the drop from one scope to the next, non-negative, and with the countable total add up to the added lines |
| DiffPrinted.HunkReads | scripts/ci-mutants-summary.py:392-395 | a printed hunk header reads back as its new-side start and hint, counts omitted or not |
| DiffExact.TotalsAreVisits | scripts/ci-mutants-summary.py:986-1046 | the totals count the added lines met and those that count |
| DiffExact.AddedLinesStand | scripts/ci-mutants-summary.py:971-976 | every line a script adds stands in its new file at the number given, in increasing order |
| DiffExact.WalkIsExact | scripts/ci-mutants-summary.py:986-1046 | over a printed diff the walk meets exactly the added lines, each in its file at its true new-file number, and counts those that truly count |
| DiffExact.AddedIsExactIff | scripts/ci-mutants-summary.py:1000-1004 | the added total is the number of lines the scripts add exactly when none starts with `++` |
| DiffTests.RangesAreBlocks | scripts/ci-mutants-summary.py:560-629 | in a file whose cfg(test) blocks close tidily, the lines in some range are exactly those of some cfg(test) block matched brace by brace, and those of the cfg(test) items that open none |
| DiffTests.CountsOutsideTests | scripts/ci-mutants-summary.py:986-1046 | end to end: over a printed diff, an added line of such a file counts exactly when its file is in scope, its text is countable and it stands outside every cfg(test) item of the new file |
| CodeOnly.FindStringEnd | src/cli_json.rs:501-516 | the loop computes the specified end |
| CodeOnly.BlankLiterals | src/cli_json.rs:466-481 | the output is the text with its comments and strings blanked |
| CodeOnly.BlankingIsExact | src/cli_json.rs:463-481 | length and newlines stay, every character outside comments and strings stays, and blanking again changes nothing |
| CodeOnly.PrintedStringEnds | src/cli_json.rs:498-516 | a printed string literal is blanked from quote to quote, whatever its body |
| CodeOnly.RawStringEnds | src/cli_json.rs:498-516 | a raw string ends at the first quote its marks follow |
| BlankingAgrees.BlanksAreLiterals | src/cli_json.rs:466-496 | on text whose block comments hold no other, whose char literals hold no double quote and none of whose words runs into a raw string, what is blanked is exactly the lexer's comments and strings, a `b` or `c` prefix aside |
| BlankingAgrees.QuoteCharMisread | src/cli_json.rs:486-496 | a char literal holding a double quote, after which code is blanked |
| TestItems.FindItemEnd | src/cli_json.rs:587-606 | the depth loop computes the specified end |
| TestItems.ItemEndIsExact | src/cli_json.rs:585-606 | an item ends past the `;` before any brace, or past the brace matching its first, or with the text |
| TestItems.WithoutTestItems | src/cli_json.rs:570-583 | the output is the code with its marked items blanked |
| TestItems.NoMarkLeft | src/cli_json.rs:570-583 | no mark is left, whole or pieced together |
| TestItems.InItemIff | src/cli_json.rs:570-583 | what is blanked stands from a mark in no earlier item up to where that item ends |
| TestItems.ScanIsExact | src/cli_json.rs:566-583 | both scans together keep length, newlines and every character outside comments, strings and test items, and blank every character in one |
| Ratchet.Judge | scripts/complexity-ratchet.py:263-278 | every problem once and nothing else, or nothing when an allowlist entry has no max |
| Ratchet.ProblemIff | scripts/complexity-ratchet.py:263-278 | a function above its cap is reported with its score, the cap and whose cap it is |
| Ratchet.Gains | scripts/complexity-ratchet.py:281-291 | every beaten entry once and nothing else |
| Ratchet.GainIff | scripts/complexity-ratchet.py:281-291 | a gain names an entry whose function is gone or within the limit, or else below its entry, with its score |
| Ratchet.PassesIff | scripts/complexity-ratchet.py:263-278 | a run passes exactly when the allowlist is in order, with 25 the most it may allow, and each function is within its own cap |
| Ratchet.PrunedIs | scripts/complexity-ratchet.py:294-297 | a prune keeps the entries still above the limit, each at the lower of what it was and what was measured |
| Ratchet.PruneKeepsProblemsIff | scripts/complexity-ratchet.py:294-297 | pruning before judging changes no problem exactly when no entry off the allowlist sits below a measurement within the limit |
| Ratchet.PruneKeepsVerdict | scripts/complexity-ratchet.py:605-619 | so never, on a baseline whose entries are above the limit |
| Ratchet.FreshPruneHasNoGain | scripts/complexity-ratchet.py:294-297 | a fresh prune leaves no gain and is idempotent |
| Ratchet.PruneIsForGains | scripts/complexity-ratchet.py:281-297 | on such a baseline, pruning changes something exactly when a gain is there |
| RatchetRuns.BaselineFile.Init | scripts/complexity-ratchet.py:600-604 | sets the first baseline, and is refused when there is one |
| RatchetRuns.BaselineFile.Gate | scripts/complexity-ratchet.py:605-619 | stores the pruned baseline when asked, whatever the verdict, and judges against what is stored |
| RatchetRuns.EntriesOnlyFall | scripts/complexity-ratchet.py:294-297 | along any history entries only leave or fall, stay above the limit, and no cap rises |
| RatchetRuns.NeverAboveAnEarlierCap | scripts/complexity-ratchet.py:263-278 | no accepted function off the allowlist exceeds any earlier cap of its key, the first included |
| RatchetRuns.NeverAboveTheStart | scripts/complexity-ratchet.py:263-278 | from `--init` on, no accepted function off both allowlists exceeds the larger of the limit and its score at the start |
| RatchetRuns.AllowlistedStaysUnderCeiling | scripts/complexity-ratchet.py:266-268 | an accepted allowlisted function is at most the ceiling |
| RatchetRuns.GainsAreKept | scripts/complexity-ratchet.py:294-297 | after a prune no later accepted run lets the function above the larger of the limit and its score then |
| RatchetRuns.DebtNeverGrows | scripts/complexity-ratchet.py:263-297 | what an accepted run has above the limit adds up to no more than at the start, over no new functions |
| RatchetRuns.InitRaisesIff | scripts/complexity-ratchet.py:600-604 | `--init` raises a cap exactly when the baseline is empty and something off the allowlist measures above the limit |
| RatchetRuns.InitCanReopen | scripts/complexity-ratchet.py:600-604 | a history whose prunes empty the baseline, after which `--init` raises a first cap |
| Moves.FnNameIsLastSegment | scripts/complexity-ratchet.py:300-302 | the name holds no separator and ends the key |
| Moves.FindMoves | scripts/complexity-ratchet.py:305-319 | whatever order the dicts are walked in, the moves found are those the inputs determine |
| Moves.MovesMatch | scripts/complexity-ratchet.py:305-319 | the moves are an injective matching from new keys to vanished ones between functions of one name, and the only one |
| Moves.MoveIff | scripts/complexity-ratchet.py:305-319 | the moves exactly: a new key takes a vanished entry of its name, the only one or the only one of its complexity, and no other new key takes it |
| Allowances.MovesKeepScores | scripts/complexity-ratchet.py:322-326 | re-keying keeps the multiset of recorded scores and the total allowance |
| Allowances.ExcessMonotone | scripts/complexity-ratchet.py:294-297 | fewer and lower entries allow no more in all |
| CrapRuns.ScoredIs | scripts/complexity-ratchet.py:333-339 | the scores are those of the rows with coverage data |
| CrapRuns.CrapScoresAre | scripts/complexity-ratchet.py:333-339 | a key scores its row with data, whatever other rows it has; without one, its baseline entry where a row holds it |
| CrapRuns.NoDataIsHeld | scripts/complexity-ratchet.py:333-339 | a function with no data has not vanished, breaks nothing, is no gain, and survives a prune unchanged |
| CrapRuns.CrapBaselineFile.Init | scripts/complexity-ratchet.py:556-562 | sets the first CRAP baseline, allowlist or not |
| CrapRuns.CrapBaselineFile.Gate | scripts/complexity-ratchet.py:555-586 | moves, prune and judgement in that order; only a prune stores, moves included |
| CrapRuns.CrapAcceptedIff | scripts/complexity-ratchet.py:563-586 | a run is accepted, pruning or not, exactly when the allowlist is in order and every function off it is within its entry, or the entry of the function it was, or ten |
| CrapRuns.StoredComplexityIs | scripts/complexity-ratchet.py:568-570 | a prune stores beside each entry the complexity of this run, or without one what was stored before |
| CrapRuns.CrapInitIs | scripts/complexity-ratchet.py:556-562 | the first CRAP baseline holds exactly the scored functions above ten, at their scores |
| CrapRuns.AllowanceNeverGrows | scripts/complexity-ratchet.py:555-586 | along any history of moves, prunes and judgements the stored allowance never grows |
| CrapRuns.CrapDebtNeverGrows | scripts/complexity-ratchet.py:555-586 | what an accepted run has above the limit, moved or not, adds up to no more than at any earlier point |
| CrapRuns.CrapPruneKeepsVerdict | scripts/complexity-ratchet.py:568-586 | a run passes with `--prune` exactly when it passes without |
| CrapRuns.MovedIsHeldToItsScore | scripts/complexity-ratchet.py:322-326 | an accepted moved function is at most the score recorded under its old key |
| CrapRuns.CrapInitRaisesIff | scripts/complexity-ratchet.py:556-562 | `--init` raises a cap exactly when the baseline is empty, no two scored rows share a key and some row scores above the limit, allowlisted or not |
| CrapRuns.CrapInitCanReopen | scripts/complexity-ratchet.py:556-562 | a history whose prune empties the baseline, after which `--init` raises a first cap |
| SpaceTree.Closures | scripts/complexity-ratchet.py:90-98 | the recursion counts the closures no named function hides |
| SpaceTree.NamedFnsSum | scripts/complexity-ratchet.py:101-110 | the sums of the nearest named functions |
| SpaceTree.RustFunctions | scripts/complexity-ratchet.py:143-168 | the walk reports each named function off the test lines, in order, with its path |
| SpaceTree.ReportIsByRoute | scripts/complexity-ratchet.py:143-168 | the report is, in preorder, one row for each route from the unit down to a named function off the test lines, its path the titles of the named functions, impls and named traits on the route and then its own |
| SpaceTree.FunctionAddsUp | scripts/complexity-ratchet.py:143-168 | a named function's complexity and those of every function inside it add up to its sum less the closures in it |
| SpaceTree.ReportedAddsUp | scripts/complexity-ratchet.py:143-168 | the same for a whole unit |
| SpaceTree.TestsAreSetAside | scripts/complexity-ratchet.py:155-158 | leaving out test lines leaves out exactly their functions' complexity |
| SpaceTree.ChargedForItsOwn | scripts/complexity-ratchet.py:155-158 | a function is charged its own complexity and that of its closures and blocks, less one a closure |
| Paint.PaintCounts | scripts/crap-report.py:112-128 | each painted line holds a stroke on it that none beats, and no other line is painted |
| Paint.StrokesAre | scripts/crap-report.py:116-124 | the strokes are those of the code regions of resolved files |
| Paint.OrderDoesNotMatter | scripts/crap-report.py:112-128 | the same regions in any order, however often, paint every line alike |
| Paint.InnermostWins | scripts/crap-report.py:112-128 | where the covering regions nest, the count is that of one within all of them, the largest of its extent |
| Paint.SmallestWins | scripts/crap-report.py:112-128 | however they lie, the count is that of a covering region none other is smaller than, or as small with a larger count |
| AdditiveGuard.LineViolations | scripts/contract-additive-guard.py:194-201 | the destructive count reports exactly the occurrences the new file lacks, in order |
| AdditiveGuard.LackingIsDifference | scripts/contract-additive-guard.py:194-201 | what is reported is the multiset difference of old members and new |
| AdditiveGuard.GoldenReportIs | scripts/contract-additive-guard.py:183-201 | each reported line and text is a member of the base that earlier equal ones leave unanswered, and every such member is reported |
| AdditiveGuard.PassingIsInclusion | scripts/contract-additive-guard.py:194-201 | nothing is reported exactly when every old member is there as often |
| AdditiveGuard.TypeViolations | scripts/contract-additive-guard.py:202-211 | the type files deleted and the members gone, exactly |
| AdditiveGuard.Violations | scripts/contract-additive-guard.py:183-212 | the golden files' report in order, then the type files', empty exactly when the head is additive over the base |
| AdditiveGuard.StepsCompose | scripts/contract-additive-guard.py:183-212 | a history additive at every step is additive end to end |
| SplitTop.Split | scripts/contract-additive-guard.py:104-121 | the loop computes the specified pieces |
| SplitTop.PiecesRejoin | scripts/contract-additive-guard.py:104-121 | the pieces rejoin to the text, each at its recorded offset |
| SplitTop.ComesBackIff | scripts/contract-additive-guard.py:104-121 | a printed list splits into its members at their offsets exactly when each but the last is balanced, the separator is no bracket or quote, and nothing splits inside the last |
| SplitTop.PrintedMembersComeBack | scripts/contract-additive-guard.py:104-121 | so a printed list of balanced members always comes back |
| SplitTop.BracketedIsBalanced | scripts/contract-additive-guard.py:104-121 | text whose brackets and quotes close is a balanced member exactly when no separator stands outside them |
| SplitTop.LiteralsKeepSeparators | scripts/contract-additive-guard.py:104-121 | each of the four pairs of brackets and both quotes keep the separators in them |
| SplitTop.UnmatchedCloserBreaksList | scripts/contract-additive-guard.py:114-117 | a member before the last that holds a closer with no opener, an arrow's `>` say, breaks the list, wherever it stands among the member's brackets and quotes |
| SplitTop.ArrowStopsSplitting | scripts/contract-additive-guard.py:114-117 | such a closer takes the depth below zero: the text is then one piece exactly when no separator stands outside brackets before it or one bracket deep after it, however many stand outside brackets after it |

## Where the code does not do what its comments say

Each has an input and, where a caller can tell beforehand, the exact condition.

- A `#[path]` whose `#` is the first token of a file, or above a `pub(in a::b)`, is
  not read, so a compiled file may be left out (`CompiledFileIsDropped`,
  `PathIsReadIff`, `ModIsKeptIff`), where scripts/ci-mutants-summary.py:1775-1782
  says a built mutant never is.
- An added line that starts with `++` is taken for a file header
  (`AddedIsExactIff`), and a nested comment or a word glued to a raw string is
  misread by the line scan (`NestedCommentMisread`, `GluedPrefixMisread`).
- `--init` raises a cap again once a prune has emptied the baseline
  (`InitRaisesIff`, `CrapInitRaisesIff`).
- An arrow's `>` ends the splitting of a list (`ComesBackIff`,
  `ArrowStopsSplitting`).
- A char literal holding a double quote opens a string for the blanking scan
  (`QuoteCharMisread`).

## Left out

- MutantVerdictExact: exactness is for the item grammar of `CfgItems` (keyword items with attributes, qualifiers and bodies); struct fields, match arms and expression statements are covered only by `EndStaysInside`, because `_item_end` reads them by a heuristic that is sometimes deliberately short (scripts/ci-mutants-summary.py:1781-1785).
- PosEndExact: the source's token text drops the `r#` of a raw identifier, so a span that ends in one ends two columns early; only expression-mode ends can.
- PlatformNotBuilt: paths are POSIX ones, and a path with exactly two leading slashes is not told from one with one; the results of `ModuleFiles` hold wherever a module's files are.
- NotBuilt: a mutant's line and column are taken as an offset into the file.
- CountAddedLines: the file system, `str.splitlines` on breaks other than a newline, the hint pattern and `added_line_is_countable` are parameters; the results hold for every choice of them.
- TestModuleRanges: a line's shape (blank or comment, cfg(test), other attribute) is given, not read from its text.
- RangeIsBlock: finding test modules by regular expression is left out; the header line and its first brace are given.
- ReadPiece: a number runs over every character past ASCII, as an identifier does; the source's number loop (scripts/ci-mutants-summary.py:1957-1967) takes only those Python calls alphanumeric, so the two differ on a number directly before any other one.
- Lex: numbers are as in `ReadPiece`, and the digit after a `.` in a number is an ASCII digit; Python's `isdigit` also takes other scripts' digits.
- ReservePrompt: ticket numbers are unbounded; the source's process-wide 64-bit counter is a field of the registry here.
- Reached: a prompt's future is dropped only where it awaits, before its first poll or on its task; runtime shutdown is left out.
- MeterIsExact: reading the clock and storing the mark is one step, and the 64-bit signed counter does not wrap.
- Gate: a CRAP export of fewer than 1000 rows, or with no scored row, is refused before a run and is no run here.
- Judge: walks of dicts in sorted order take the sorted keys as given; floating-point rounding is left out, scores being real numbers.
- RustFunctions: the title of a space with its cfg, and the file and module prefix of a key, are taken as given.
- PaintCounts: a coverage filename is given as the path it resolved to.
- Violations: which members a golden or a type file's text has (`line_members`, `ts_members`) is given; git is left out.
- WithoutTestItems: text is sliced by characters, not bytes.
- `InFlight` models abort as membership in a set of handles; a task that settles first keeps its outcome.
- `score` and `crap` in scripts/crap-report.py: one expression each.
- Parsing of `rustc --print cfg`, TOML and JSON, command lines, reports, labels and the self-tests.
