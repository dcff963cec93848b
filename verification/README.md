# cli-proxy: a verified model

cli-proxy is a man-in-the-middle HTTP proxy with a terminal user interface. This project models its
self-contained algorithms and protocols in Dafny and proves what they are for. Sockets, TLS, files,
regular expressions and the clock are parameters or atomic steps.

Check it with `dafny verify --resource-limit 2000000 --verification-time-limit 0 dfyconfig.toml`.

## What is modelled

* **Screen and renderer** (`Glyphs`, `Screen`, `Terminal`, `Renderer`, `Repaint`). `Renderer` gives the operations
  a frame update writes, as a function of the old and the new frame; `Screen` is the cell buffer, whose
  `Render` is proved to write exactly those; `Terminal` is an independent emulator in which overwriting
  half of a double-width glyph blanks the other half. The main theorem connects the two: a terminal
  showing the old frame then shows the new one, along any chain of draws, if and only if the frames are
  well formed. `Repaint` says what an update leaves on a terminal that does not show the old frame.
* **System proxy switch** (`Settings`, `SysProxy`, `SysRuns`, `SysEnable`, `Targets`, `LinuxProxy`,
  `DarwinProxy`, `DarwinRollback`, `EnableLaws`). Every
  call is a list of effects on (settings, recovery copy) and a new memory; a crash keeps a prefix of the
  effects and loses the memory. `Controller` performs exactly those effects, in that order, and logs them.
  The theorems of `SysRuns` are over whole runs of calls, failures, crashes and user edits, for any platform
  and any view `see` of the settings: all of them on GNOME, the proxies in force on macOS. What they need of
  a platform is proved of both, each with its exact condition. `Hazard` names the calls that can lose the
  original, by the state before the call, its arguments and its faults. `SysEnable` and `EnableLaws` say what
  Enable puts in force.
* **Filter language** (`QueryTokens`, `QueryScan`, `QueryMatch`, `QueryAtoms`, `QueryKeys`,
  `QueryParser`, `QueryErrors`, `QuerySyntax`, `QueryCompose`, `Filters`). Tokenizer, parser, atoms, evaluator and the saved filters
  with their compiled cache. The partner is an expression tree with its own meaning and a printer that
  uses as few parentheses as precedence allows.
* **Rules** (`Rules`, `RuleLaws`, `RuleReading`, `RuleMatch`, `Plans`, `PlanLaws`). Parser, printer, rule set
  and matching, and what a list of rules decides for one exchange. Lines are read as their authors may spell
  them, and plans told from the last action of each kind.
* **Terminal input** (`TermInput`, `TermLaws`). The byte-level decoder, as functions and as the reader
  that loops over the stream; the partner is an encoder for keys, mouse reports and UTF-8.
* **Breakpoints** (`Breaker`, `Unicode`, `Editing`, `RawMessage`, `RawReading`). The queue over every interleaving, the line
  editor as one flat text with a cursor, and the raw message shown and split. Messages and bodies are bytes,
  the editor's lines are runes, and `Unicode` has Go's conversions between them, invalid bytes included.
* **Exchange** (`Exchange`, `ExchangeLaws`, `ExchangeRules`). One request from arrival to last recorded state. `FateOf` is
  the decision table; `Handle` writes status lines, bodies and record versions step by step. `ExchangeRules` tells whole
  exchanges from the request, the actions and the operator alone.
* **Flow store** (`Store`, `Wakeups`). The bounded store against an unbounded history, and its
  notifications over every interleaving of changes, single sends, receives and snapshots.
* **Layout** (`Wrap`, `Columns`). Line wrapping, column widths, and text fitted into cells.

`Decimal`, `Text`, `Sequences` and `Wrappers` hold the library functions these need.

A class is used where the source has an object that changes in place; its methods are proved against
functions, and the lemmas are about those functions. Go's `int` is 64 bits wide where numbers are
parsed; ids and counters are unbounded.

## What was found

* A frame update is right exactly for well-formed frames (`Renderer.FullShowsExactly`, `DiffShowsExactly`,
  `ChainShowsExactly`), and `Set` does not keep them so: `Screens.SetKeepsWellFormed` gives the exact
  condition, `Screens.SetCanBreakARow` a row it breaks. A well-formed frame drawn after an ill-formed one is shown
  if and only if the cells its update does not redraw are right already (`Repaint.ChainHealsExactly`).
* The package comment of the system proxy promises that the settings are put back exactly as they were
  (internal/sysproxy/sysproxy.go:1-7). Three calls can lose them: an `Enable` whose rollback fails in part still
  deletes the copy (internal/sysproxy/sysproxy.go:166-173); a `Restore` with nothing in memory deletes the copy that
  an earlier failure left (internal/sysproxy/sysproxy.go:209-213); and an `Enable` with nothing in memory while a copy
  is on disk overwrites it with the settings as they now are (internal/sysproxy/sysproxy.go:151-164), though no
  command of it fails. These are the hazards. A run without them is safe whatever restores fail
  (`SysRuns.EveryRunIsCrashSafe`), and a hazard loses the original exactly when what it trusts in place of
  the copy is not as good (`SysRuns.StepExact`, `RunExact`). For the second and the third that is when the
  settings in force are not the original ones (`SysRuns.RestoreDrops`, `EnableOverwrites`); for the first, when
  the commands that did take effect do not add up to them (`SysRuns.GivenUpExact`), which is worked out command by
  command for GNOME and macOS (`LinuxProxy.GnomeRollbackExact`, `DarwinRollback.MacRollbackExact`).
* An Enable can return ok and do nothing: where a re-point was cut off, memory keeps the target before, and an
  Enable for that target finds it there and returns (internal/sysproxy/sysproxy.go:180-186), though the settings have
  moved in part. `EnableLaws.EnableCanDoNothing` is such a run; `GnomeEnables` and `MacEnables` say exactly when
  an Enable points the settings where it should, `GnomeRunPointsExactly` and `MacRunPointsExactly` when they do
  so in a run.
* On macOS the exact settings come back only if every service had a proxy server
  (`DarwinProxy.MacUndoable`), which is rare. The proxies in force come back if and only if every enabled one
  had a server (`DarwinProxy.MacEffectUndoable`), and over whole runs too (`DarwinProxy.MacRunsAreCrashSafe`).
* The guide says that a message discarded at a breakpoint gives the client a 502 (docs/guide.md:559-560). For a
  response the code writes no status line at all (internal/proxy/proxy.go:874-882); the model follows the code.
* A held request that is let through without a message, as the key that releases every breakpoint does, or with one
  that cannot be read, is forwarded to the URL as received (internal/proxy/proxy.go:749) and not to the one completed on
  arrival (internal/proxy/proxy.go:668-674). Inside a tunnel that URL has neither scheme nor host, so the client gets a
  502: `ExchangeLaws.PassedOnExact` says exactly when releasing changes nothing, `ExchangeLaws.ReleasedTunnel` runs the
  failing case.
* A held request released as it was shown is forwarded over plain `http` whatever its scheme was
  (internal/proxy/proxy.go:1344-1346) unless a redirect names one: `ExchangeLaws.RequestReleasedAsShown`.
* A held response released as it was shown is sent with the server's own status, so a status override is
  undone: `ExchangeLaws.ResponseReleasedAsShown`.
* A body goes through the editor as runes: released as it was shown, it is altered unless it is valid UTF-8 without a
  CR LF pair, and so is any head line that is not UTF-8 (`RawMessage.ReleaseRequest`, `ReleaseResponse`).
* A `block` action whose code is 0 lets the exchange through: `ExchangeLaws.LastBlockDecides`.
* The body of every request that is not held is cut to the capture limit on its way upstream, with no rule and
  no breakpoint set (internal/proxy/proxy.go:680, 771, 1412-1425): `ExchangeLaws.RequestBodyIsCut`, `PlainPasses`.
* A status code outside 100 to 999 from a rule or an edit ends the handler in the middle of the exchange, as the
  HTTP library panics on it: the client gets no answer and the flow stays pending, or blocked if it was refused.
  One from 100 to 199, apart from 101, is recorded as the status, and no answer of that status is ever sent
  (`Exchange.OneLineExactly`).
* An answer that has to be buffered is cut to the capture limit on its way to the client:
  `ExchangeLaws.BufferedAnswerIsCut`.
* A quoted empty string in a filter reads as the end of the input, and is an error unless it directly follows
  a `!`, which takes it for an atom (`QueryErrors.ErrorExactly`). `!` also takes a following `|` for an atom
  (`QueryCompose.BangTakesTheBar`), so a filter that ends in `!` is no first alternative: the bar is then
  searched for in the URL (`QueryCompose.BarAfterBang`, `BarSearchesURL`), and put in parentheses it is an error
  (`QueryCompose.GroupsAreAnd`).

## Model

| member | source | states |
|---|---|---|
| Renderer.DiffIsCorrect | internal/tui/screen.go:263-308 | for any two well-formed frames of the terminal's size, running what the update writes on a terminal that shows the old frame leaves it showing exactly the new one, wide glyphs and styles included |
| Renderer.FullIsCorrect | internal/tui/screen.go:263-308 | a full repaint shows the frame from any terminal state: any glyphs, cursor and style |
| Renderer.DrawsShowTheLastFrame | internal/tui/screen.go:263-308 | after any chain of draws of one size, the first of them full, the terminal shows the last frame |
| Renderer.FullShowsExactly | internal/tui/screen.go:263-308 | from any terminal state a full repaint of a frame of its size shows it if and only if the frame is well formed |
| Renderer.DiffShowsExactly | internal/tui/screen.go:263-308 | from a terminal without half glyphs that shows the old frame, an update shows the new one if and only if that is well formed |
| Renderer.ChainShowsExactly | internal/tui/screen.go:263-308 | along any chain of draws of one size every frame is shown after its draw if and only if all of them are well formed |
| Repaint.RowLeaves | internal/tui/screen.go:270-305 | one row of an update over any terminal row and against any old row: the redrawn stretch shows the new cells, a half cut off at either end is blank, the rest stays |
| Repaint.UpdateShowsExactly | internal/tui/screen.go:263-308 | an update to a well-formed frame, against any old frame and over any terminal, shows it if and only if every row so left shows it |
| Repaint.ChainHealsExactly | internal/tui/screen.go:263-308 | after any chain of draws, ill-formed frames among them, exactly when the next well-formed frame is shown |
| Renderer.DiffRow | internal/tui/screen.go:270-305 | updating one row turns the row that showed the old cells into the new one and touches no other row |
| Renderer.FullRow | internal/tui/screen.go:270-305 | repainting one row over any row without half glyphs shows it and touches no other row |
| Renderer.PaintFrame | internal/tui/screen.go:263-308 | after the first y rows of an update those show the new frame and the others are untouched |
| Screens.Screen.Resize | internal/tui/screen.go:101-113 | dimensions are at least 1 and every cell is empty, in a new buffer |
| Screens.Screen.Clear | internal/tui/screen.go:116-120 | every cell is empty, so the frame is well formed |
| Screens.Screen.Set | internal/tui/screen.go:123-140 | outside the buffer nothing changes; inside, only the row written to, as SetRow says |
| Screens.Screen.Text | internal/tui/screen.go:143-159 | the row becomes TextRow of it, clipped at the right edge, and the next free column is returned |
| Screens.SetKeepsWellFormed | internal/tui/screen.go:123-140 | a write keeps a well-formed row well formed if and only if it cuts no double-width glyph and a wide rune has room |
| Screens.SetCanBreakARow | internal/tui/screen.go:123-140 | a narrow rune over a wide lead leaves its second half behind |
| Screens.SetIsThere | internal/tui/screen.go:123-140 | the rune and style given stand in the cell, a space for a rune that takes no room, a second half beside a wide one, and every other cell stays |
| Screens.TextIsThere | internal/tui/screen.go:143-159 | where it fits, the string without newlines and runes that take no room is read back from the row, in its style, and everything else stays |
| Screens.TextKeepsWellFormed | internal/tui/screen.go:143-159 | text that fits, drawn from any column, negative ones included, where no wide glyph is, keeps the row well formed, ends where its width says and leaves the columns before it |
| Screens.Screen.Scan | internal/tui/screen.go:271-286 | finds the first and the last changed column of a row |
| Screens.Screen.Draw | internal/tui/screen.go:288-304 | writes style changes and runes of the changed stretch, continuation cells skipped |
| Screens.Screen.RenderRow | internal/tui/screen.go:270-305 | writes for one row exactly what the renderer function says |
| Screens.Screen.Render | internal/tui/screen.go:263-308 | writes exactly the update against the old buffer, or a full repaint when asked, without a previous buffer, or when sizes differ |
| Settings.World.ApplyAll | internal/sysproxy/linux.go:51-66 | commands take effect in order up to the first that fails, and the call fails exactly then |
| Settings.World.RestoreAll | internal/sysproxy/linux.go:68-96 | every command is tried, the failing ones have no effect, and the call fails exactly when one did |
| Settings.SurvivingAt | internal/sysproxy/linux.go:68-96 | after a restore with failures each field holds the value its command writes if that command succeeded, and its old value otherwise |
| Settings.StaysNear | internal/sysproxy/linux.go:51-66 | whatever commands of the platform run, settings it does not own keep their values |
| Settings.AppliesUndone | internal/sysproxy/linux.go:51-96 | on a platform whose restore undoes it, one restore undoes any list of applies, each complete or cut off |
| SysProxy.Controller.Enable | internal/sysproxy/sysproxy.go:137-178 | performs exactly the effects, memory change and result of enabling or re-pointing, for every combination of failures |
| SysProxy.Controller.TurnOn | internal/sysproxy/sysproxy.go:150-178 | snapshot, then the recovery copy, then the settings; a failed apply is rolled back and the copy removed |
| SysProxy.Controller.Switch | internal/sysproxy/sysproxy.go:166-177 | a complete apply is remembered; one that fails is rolled back, and the copy removed whatever became of that |
| SysProxy.Controller.Repoint | internal/sysproxy/sysproxy.go:180-194 | the original entries stay in memory and on disk, only the target moves |
| SysProxy.Controller.Restore | internal/sysproxy/sysproxy.go:201-223 | restores what memory holds and then removes the copy; a failed restore keeps the copy; with nothing in memory only the copy goes |
| SysProxy.Controller.RecoverStale | internal/sysproxy/sysproxy.go:227-240 | a copy left by an earlier process is restored and removed |
| SysProxy.Controller.WriteBackup | internal/sysproxy/sysproxy.go:263-276 | one atomic write of the copy, or none without a directory or when writing fails |
| SysRuns.EveryPrefixIsSafe | internal/sysproxy/sysproxy.go:137-240 | a crash after any number of effects that spare the copy, then its removal, leaves the original in force or on disk |
| SysRuns.UndoBringsBack | internal/sysproxy/sysproxy.go:201-240 | when no restore command fails the original settings are back |
| SysRuns.StepExact | internal/sysproxy/sysproxy.go:137-240 | whatever fails, and wherever a crash falls, a call leaves the original in force or on disk if and only if it is no hazard or what the hazard trusts is as good; then the invariant is kept |
| SysRuns.RunExact | internal/sysproxy/sysproxy.go:137-240 | in every run of calls, failures and crashes the original is in force or on disk all along if and only if no event loses it |
| SysRuns.EnableOverwrites | internal/sysproxy/sysproxy.go:150-178 | an Enable with nothing in memory that gets to write the copy, whatever fails or cuts it off, keeps the original if and only if what it goes by looks like it: the settings of its rollback where it gives up, otherwise those in force before; and these are the same where no rollback command fails |
| SysRuns.GivenUpExact | internal/sysproxy/sysproxy.go:166-173 | an Enable that gives up keeps the original if and only if the apply cut off and the rollback with its failures add up to it |
| SysRuns.RestoreDrops | internal/sysproxy/sysproxy.go:201-223 | a Restore with nothing in memory keeps the original if and only if it is in force |
| SysRuns.EveryRunIsCrashSafe | internal/sysproxy/sysproxy.go:137-240 | in every run without a hazard, whatever else fails, the original is in force or on disk, and in force when no copy is on disk; a Restore or start that ends without a failed restore command leaves no copy |
| SysRuns.ForeignCopyStays | internal/sysproxy/sysproxy.go:227-261 | a copy left by another platform is neither restored nor removed |
| SysEnable.SucceedsExactly | internal/sysproxy/sysproxy.go:137-194 | Enable returns ok if and only if its target is remembered or nothing it has to do fails |
| SysEnable.EnablePointsExactly | internal/sysproxy/sysproxy.go:137-194 | after an Enable that returns ok its target is remembered, and the settings point at it if and only if it was not remembered before, or they did so already |
| SysEnable.CopyNamesTarget | internal/sysproxy/sysproxy.go:137-194 | after an Enable that applied its target the copy on disk names it and holds the settings to go back to |
| SysEnable.PartsAreWritten | internal/sysproxy/sysproxy.go:137-194 | in every run, while the proxy is on, each part of the settings is what the last Enable to reach it put there |
| SysEnable.RunPointsExactly | internal/sysproxy/sysproxy.go:137-194 | so the settings point at the remembered target if and only if each part was last written with what that asks for |
| SysEnable.RunPoints | internal/sysproxy/sysproxy.go:137-194 | and they do whenever the proxy is on in a run where no re-point was cut off |
| EnableLaws.GnomeEnables | internal/sysproxy/linux.go:51-66 | on GNOME an Enable that returns ok leaves the mode manual and both proxies at its host, without brackets, and port, if and only if that target was not remembered or they were so before |
| EnableLaws.GnomeRunPointsExactly | internal/sysproxy/sysproxy.go:137-194 | over runs on GNOME, field by field |
| EnableLaws.EnableCanDoNothing | internal/sysproxy/sysproxy.go:180-186 | a run whose last Enable returns ok and remembers its target while plain HTTP goes elsewhere |
| EnableLaws.MacEnables | internal/sysproxy/darwin.go:86-101 | the same of the web and the secure proxy in force of every service on macOS |
| EnableLaws.MacRunPointsExactly | internal/sysproxy/sysproxy.go:137-194 | over runs on macOS, proxy by proxy |
| Targets.LocalTargetExact | internal/sysproxy/sysproxy.go:110-124 | for every host and port: accepted if and only if the port is in 1 to 65535, with the host stripped of brackets and wildcards made loopback |
| Targets.NoPortIsRefused | internal/sysproxy/sysproxy.go:110-124 | an address without a colon is refused |
| Targets.SplitOfTarget | internal/sysproxy/linux.go:98-105 | the platform splits a target into the port and the bracket-stripped host it was made of, which is the very host if and only if that has no bracket at either end |
| Targets.HostAlone | internal/sysproxy/linux.go:98-105 | a target without a colon is a host alone |
| LinuxProxy.ApplyPlatform | internal/sysproxy/linux.go:51-66 | the five commands take effect in order up to the first failure |
| LinuxProxy.RestorePlatform | internal/sysproxy/linux.go:68-96 | every entry's commands are tried, and the first error is reported |
| LinuxProxy.GnomeUndoable | internal/sysproxy/linux.go:26-96 | restoring the snapshot brings the settings back exactly, from anywhere the platform can have taken them, if and only if the mode was not empty |
| LinuxProxy.UnsetModeIsNone | internal/sysproxy/linux.go:68-96 | a mode that was never set comes back as none, and everything else as it was |
| LinuxProxy.AppliesAreUndone | internal/sysproxy/linux.go:26-96 | after any number of applies, each complete or cut off, one restore brings the settings back exactly |
| LinuxProxy.GnomeRunsAreCrashSafe | internal/sysproxy/sysproxy.go:137-240 | the crash-safety theorem on GNOME for all settings, given that the mode is set at the start and after every edit |
| LinuxProxy.GnomeHazardExact | internal/sysproxy/sysproxy.go:150-223 | on GNOME, whatever fails in it, a hazard keeps the original if and only if each field is the original one again where it gives up, and otherwise if and only if the settings in force are the original ones |
| LinuxProxy.MaskedRestoreExact | internal/sysproxy/linux.go:68-96 | a restore with failing commands undoes the first n apply commands if and only if every command that fails is for a setting those left as it was |
| LinuxProxy.GnomeRollbackExact | internal/sysproxy/sysproxy.go:166-173 | an Enable that gives up keeps the original, though it deletes the copy, if and only if every field is the original one: the value applied where the rollback missed a field that was written, the one before the call elsewhere |
| LinuxProxy.FailingRestoreExact | internal/sysproxy/linux.go:68-96 | a restore with failing commands undoes the first n apply commands for every settings and every target alike if and only if none of its own first n commands fails |
| SysRuns.GaveUpLeaves | internal/sysproxy/sysproxy.go:166-173 | what an Enable that gives up leaves: no copy, and the settings of the rollback with its failures |
| LinuxProxy.SecondRestoreLeaves | internal/sysproxy/sysproxy.go:201-223 | after a failed restore a second one removes the copy and changes no setting |
| DarwinProxy.ApplyPlatform | internal/sysproxy/darwin.go:86-101 | two commands for each service in order, up to the first failure |
| DarwinProxy.RestorePlatform | internal/sysproxy/darwin.go:103-136 | for each entry the server first, then its state, all tried whatever fails |
| DarwinProxy.RestoreLeaves | internal/sysproxy/darwin.go:103-136 | what a restore of a snapshot leaves in every field of every service |
| DarwinProxy.MacUndoable | internal/sysproxy/darwin.go:66-136 | the exact settings come back, from anywhere near them, if and only if every entry had a server |
| DarwinProxy.MacEffectUndoable | internal/sysproxy/darwin.go:66-136 | every proxy in force comes back if and only if every enabled entry had a server |
| DarwinProxy.MacLawful | internal/sysproxy/darwin.go:66-136 | applying, and restoring a snapshot, write only what the platform owns and keep its types |
| DarwinProxy.AppliesAreUndone | internal/sysproxy/darwin.go:66-136 | when every entry had a server, one restore brings the settings back exactly after any number of applies, each complete or cut off |
| DarwinProxy.AppliesKeepProxies | internal/sysproxy/darwin.go:66-136 | when every enabled entry had a server, one restore brings every proxy in force back after any such applies |
| DarwinProxy.MacRunsAreCrashSafe | internal/sysproxy/sysproxy.go:137-240 | the crash-safety theorem on macOS for the proxies in force, given that enabled entries had servers at the start and after every edit |
| DarwinRollback.RollbackAt | internal/sysproxy/darwin.go:66-136 | each proxy after an apply cut off at any command and a restore with any commands failing |
| DarwinRollback.MacRollbackExact | internal/sysproxy/sysproxy.go:166-173 | on macOS an Enable that gives up keeps the proxies in force if and only if each, so worked out, is the original one |
| DarwinRollback.MacHazardExact | internal/sysproxy/sysproxy.go:150-223 | on macOS a hazard, whatever fails in it, keeps the proxies in force if and only if those it goes by are the original ones |
| QueryTokens.Tokenize | internal/core/query.go:74-131 | the loops give exactly the tokens of the specification, piece by piece |
| QueryScan.WordToken | internal/core/query.go:117-128 | a word goes up to a blank, parenthesis, bar or bang, and `or` in any letter case is a bar |
| QueryScan.QuoteToken | internal/core/query.go:107-116 | a quoted string is taken as it stands, to the next quote or to the end |
| QueryScan.PatternToken | internal/core/query.go:88-106 | a pattern goes up to a slash not behind a backslash, and a blank or the end cuts it short |
| QueryScan.MarkToken | internal/core/query.go:80-87 | blanks are skipped, and the four marks stand for themselves |
| QueryAtoms.StatusIsExact | internal/core/query.go:244-322 | `status:N` selects exactly the flows with status N, for every 64-bit N, 0 included |
| QueryAtoms.StatusCompares | internal/core/query.go:293-322 | the four comparisons compare, and never select a flow without a response |
| QueryAtoms.StatusClass | internal/core/query.go:293-322 | `status:Nxx` selects exactly the statuses of that hundred |
| QueryAtoms.StatusError | internal/core/query.go:365-371 | `status:err` selects exactly the flows that never got a response |
| QueryAtoms.NegatedAtom | internal/core/query.go:343-349 | `!` in front of an atom is its exact negation |
| QueryAtoms.MethodIsListed | internal/core/query.go:358-364 | `method:` with a list selects exactly the flows with one of those methods |
| QueryAtoms.HostAndBodySearch | internal/core/query.go:372-378 | `host:` and `body:` find the value anywhere, letter case apart |
| QueryAtoms.WordSearchesURL | internal/core/query.go:289-290 | a bare word finds itself anywhere in the URL, letter case apart |
| QueryKeys.PatternMatchesURL | internal/core/query.go:254-265 | `/p/` matches the expression against the whole URL; one that does not compile searches the URL for its text and is reported |
| QueryKeys.KeySelects | internal/core/query.go:266-290 | every key, short or long and in any letter case, selects by its own part of the flow, and any other text before a colon searches the URL for the whole |
| QueryKeys.StatusKeys | internal/core/query.go:271-273 | `s:` and `code:` in any letter case are `status:` |
| QueryKeys.OtherSearchesURL | internal/core/query.go:289-290 | an atom that is no pattern and has no key searches the URL for itself |
| QueryKeys.EmptySelectsAll | internal/core/query.go:250-253 | the empty atom selects every flow |
| QueryParser.QParser.ParseOrNode | internal/core/query.go:156-166 | the parser with its position and error refines the parse function over token lists |
| QueryParser.QParser.ParseAndNode | internal/core/query.go:168-185 | likewise for juxtaposition |
| QueryParser.QParser.ParseUnaryNode | internal/core/query.go:187-211 | likewise for `!`, groups and atoms, with the errors each reports |
| QueryParser.Compiled | internal/core/query.go:229-242 | tokenizing and parsing with the imperative parts gives the compiled query, leftovers reported |
| QueryErrors.ErrorExactly | internal/core/query.go:143-242 | over any token list, an error is reported if and only if the parentheses are unbalanced, some `!` is directly followed by `)`, some empty token does not directly follow a `!`, or some atom does not compile |
| QuerySyntax.TokensOfPrint | internal/core/query.go:74-131 | tokenizing the print of any expression over clean atoms gives its tokens |
| QuerySyntax.ParseOfPrint | internal/core/query.go:38-242 | printing with as few parentheses as precedence allows, tokenizing and parsing gives a query that matches each flow exactly when the expression holds: `!` binds tighter than juxtaposition, and that tighter than `\|` |
| QueryCompose.BarIsOr | internal/core/query.go:156-166 | `\|` between two error-free token lists is the disjunction of their queries |
| QueryCompose.BangTakesTheBar | internal/core/query.go:187-211 | a `!` takes a following bar for its atom, whatever follows |
| QueryCompose.BarAfterBang | internal/core/query.go:156-211 | after a token list that ends in `!`, the bar and any atom of the same meaning give the same query and error |
| QueryCompose.BarSearchesURL | internal/core/query.go:289-290 | that meaning is a search for the bar in the URL |
| QueryCompose.GroupsAreAnd | internal/core/query.go:168-211 | error-free lists in parentheses side by side are an error if and only if some list ends in `!`, and otherwise the conjunction of their queries |
| Filters.FilterSet.Add | internal/core/filter.go:56-64 | appends under an id no filter has, and the cache is dropped |
| Filters.FilterSet.Replace | internal/core/filter.go:67-77 | swaps the filter with that id in place; without one nothing changes |
| Filters.FilterSet.Remove | internal/core/filter.go:80-90 | drops exactly the filter with that id |
| Filters.FilterSet.Toggle | internal/core/filter.go:93-106 | flips exactly the filter with that id and reports its new state |
| Filters.FilterSet.Clear | internal/core/filter.go:109-114 | no filter is left and ids are not reused |
| Filters.FilterSet.Load | internal/core/filter.go:166-191 | what the file holds replaces the filters, an unreadable file changes nothing, ids stay ahead |
| Filters.FilterSet.Queries | internal/core/filter.go:140-163 | cached or not, the queries are those of the enabled filters as they are now |
| Filters.FilterSet.Match | internal/core/filter.go:130-138 | after any sequence of calls a match is the conjunction of the enabled non-blank filters as they are now |
| Filters.PassesIsEach | internal/core/filter.go:117-163 | passing the compiled set is passing every enabled non-blank expression |
| Filters.SavedFiltersAreOneQuery | internal/core/filter.go:117-163 | for error-free filters, the one query over their parenthesised tokens is an error if and only if some filter ends in `!`, and otherwise matches as the set does |
| Rules.ParseRule | internal/core/rules.go:167-214 | the loop over the parts gives exactly the parse function's rule or error |
| RuleReading.LineReads | internal/core/rules.go:167-214 | a line of a head and actions, blanks and letter case as its author pleases, is refused without an action or with a URL that does not compile, and is otherwise the rule meant: a method or method list in any letter case before a URL is that method, any other head is a URL for every method, an empty one every URL; actions have lower-case kinds and trimmed arguments |
| RuleReading.HeadReads | internal/core/rules.go:172-187 | the three kinds of head, each by itself |
| RuleReading.UnknownIsRefused | internal/core/rules.go:188-206 | a line is refused for its first action of no known kind |
| RuleReading.LineTrims | internal/core/rules.go:167-171 | blanks around a line do not matter |
| RuleReading.CommentIsNoRule | internal/core/rules.go:167-171 | a blank line or a comment is no rule |
| RuleMatch.Match | internal/core/rules.go:78-97 | whether a rule is for a method and URL: enabled, of that method, its expression matching the URL or the path and query |
| RuleMatch.MatchAll | internal/core/rules.go:325-335 | the loop over the rules of a set |
| RuleMatch.MatchingIs | internal/core/rules.go:325-335 | the rules for an exchange are those that match it, all of them, once each and in order |
| RuleMatch.MethodsFor | internal/core/rules.go:112-123 | a rule for `*` is for every method, one for a list for its members |
| RuleMatch.PathOfURL | internal/core/rules.go:101-110 | the path of an absolute URL is what follows the authority, or a slash |
| Rules.String | internal/core/rules.go:137-155 | the builder loop gives exactly the rule's line |
| RuleReading.NoMethodPrints | internal/core/rules.go:137-142 | a rule without a method is printed as one for every method |
| Rules.RuleSet.Add | internal/core/rules.go:265-273 | appends under an id no rule has |
| Rules.RuleSet.Replace | internal/core/rules.go:276-293 | swaps the rule with that id in place, or appends it under a fresh one |
| Rules.RuleSet.Remove | internal/core/rules.go:296-306 | drops exactly the rule with that id |
| Rules.RuleSet.Toggle | internal/core/rules.go:309-322 | flips exactly the rule with that id and reports its new state |
| Rules.RuleSet.ImportText | internal/core/rules.go:393-409 | appends every line that parses under consecutive fresh ids and reports every other with its number |
| RuleMatch.ImportReports | internal/core/rules.go:393-409 | an import reports exactly the lines that are no rules, in order, counted from 1, each with its own error |
| Rules.RuleSet.Export | internal/core/rules.go:412-420 | one line for each rule, in order |
| RuleLaws.ParsedIsCanonical | internal/core/rules.go:167-226 | what a parsed rule is always like: trimmed, lower-case kinds, a known method or list, a compiling URL |
| RuleLaws.CanonicalReadsBack | internal/core/rules.go:137-214 | every rule of that shape is read back from its line exactly |
| RuleLaws.RoundTrip | internal/core/rules.go:137-214 | for every line the parser accepts, parsing the printed rule gives the same method, URL and actions |
| RuleLaws.ImportOfExport | internal/core/rules.go:393-420 | importing the export of rules parsed from single lines gives the same rules in order, enabled, under fresh ids, with no error |
| TermInput.Reader.ParseLoop | internal/term/input.go:143-166 | the reader emits exactly the events of the decoding function over the stream |
| TermInput.Reader.ReadSeq | internal/term/input.go:153-163 | a sequence is collected to its end, a pause, or the 129th byte |
| TermInput.Reader.ReadRune | internal/term/input.go:216-235 | the bytes a lead byte announces are gathered, up to a pause |
| Unicode.Utf8Decodes | internal/term/input.go:216-260 | every scalar value is decoded from its UTF-8 bytes, and the lead byte announces their number |
| Unicode.Utf8NotFullEarly | internal/term/input.go:169-194 | no proper beginning of an encoded rune passes for a full one |
| TermLaws.FramedIsCollected | internal/term/input.go:153-163 | a sequence no proper beginning of which is complete is collected whole, whatever follows it |
| TermLaws.CsiIsFramed | internal/term/input.go:169-194 | a control sequence with parameters below the final range is complete at its final byte and not before |
| TermLaws.ThreeNums | internal/term/input.go:447-466 | three decimal parameters are read back, over the whole range of int |
| TermLaws.SgrReads | internal/term/input.go:288-412 | every SGR mouse report is read back: press, drag, motion, wheel still or moving, release, coordinates; modifier bits and the bank of the button are ignored, and every wheel button but the first reads as down |
| TermLaws.SgrExact | internal/term/input.go:288-466 | below the cap a mouse report is read back if and only if its code and both coordinates fit the decoder's int |
| TermLaws.X10Reads | internal/term/input.go:416-445 | every X10 mouse report with coordinates up to 222 is read back, modifier bits ignored; a wheel turned while moving reads as a wheel |
| TermLaws.CsiReads | internal/term/input.go:288-328 | arrows, Home, End and Shift-Tab with any modifiers are read back |
| TermLaws.TildeReads | internal/term/input.go:329-378 | editing and function keys with any modifiers are read back from their numbers, Home and End from either of theirs |
| TermLaws.AltReads | internal/term/input.go:238-260 | Alt with any rune that starts no other sequence is read back |
| TermLaws.ReadsBack | internal/term/input.go:143-260 | decoding the encoding of one input gives its event and leaves the rest of the stream alone |
| TermLaws.StreamReadsBack | internal/term/input.go:143-466 | any list of inputs, run together, is decoded as exactly those events in that order |
| Breaker.Queue.Enqueue | internal/core/breakpoint.go:66-78 | a fresh id at the end of the queue |
| Breaker.Queue.Take | internal/core/breakpoint.go:97-110 | removes exactly that breakpoint, and reports whether it was there |
| Breaker.Queue.TakeAll | internal/core/breakpoint.go:113-122 | empties the queue and returns it in order |
| Breaker.StepKeepsInv | internal/core/breakpoint.go:66-122 | every step of Hold, Submit and ReleaseAll keeps the invariant over queue, channels and calls |
| Breaker.ExactlyOnePlace | internal/core/breakpoint.go:66-122 | in every run each breakpoint is in exactly one of pending, removed, sent and received, its channel holds at most one verdict, and pending ids ascend |
| Breaker.NoSendBlocks | internal/core/breakpoint.go:97-122 | every send finds its channel empty |
| Breaker.RemovedOnce | internal/core/breakpoint.go:97-122 | one call removes a breakpoint, once, in any run |
| Breaker.HoldReturnsItsVerdict | internal/core/breakpoint.go:66-122 | a Hold returns exactly the verdict of the single call that removed its breakpoint |
| Breaker.GotWhatWasSent | internal/core/breakpoint.go:66-122 | once a Submit or ReleaseAll has let a breakpoint go, its Hold returns the verdict submitted, or an empty one, and nothing else in the rest of the run |
| Breaker.ReturnsWhatWasSent | internal/core/breakpoint.go:66-122 | every Hold that returned was let go by exactly one call before, and returned what that call answers with |
| Editing.ViewDetermines | internal/tui/editor.go:8-40 | text before and after the cursor determine lines and cursor, so the flat view loses nothing |
| Unicode.SaneExact | internal/tui/editor.go:17-40 | bytes turned into runes and back are the same if and only if they are valid UTF-8 |
| Editing.FlatOfSplit | internal/tui/editor.go:17-40 | bytes split at newlines, each line turned into runes and joined, are the runes of the whole |
| Editing.ReplaceChanges | internal/tui/editor.go:17-28 | replacing CR LF changes bytes if and only if they have such a pair, and then a CR is gone |
| Editing.Editor.constructor | internal/tui/editor.go:17-28 | the runes of the bytes with CR LF replaced, the cursor at the start |
| Editing.Editor.Text | internal/tui/editor.go:31-40 | the lines joined with newlines, as UTF-8 |
| Editing.Editor.Insert | internal/tui/editor.go:43-54 | types one character at the cursor of the flat text |
| Editing.Editor.Newline | internal/tui/editor.go:57-71 | types a newline at the cursor of the flat text |
| Editing.Editor.Backspace | internal/tui/editor.go:74-94 | removes the character before the cursor, or nothing at the start |
| Editing.Editor.Delete | internal/tui/editor.go:97-109 | removes the character after the cursor, or nothing at the end |
| Editing.Editor.MoveLeft | internal/tui/editor.go:112-119 | one character to the left, or stays at the start |
| Editing.Editor.MoveRight | internal/tui/editor.go:122-129 | one character to the right, or stays at the end |
| Editing.Editor.MoveUp | internal/tui/editor.go:132-137 | one line up, the column kept or at the line's end |
| Editing.Editor.MoveDown | internal/tui/editor.go:140-145 | one line down, likewise |
| Editing.Editor.PageUp | internal/tui/editor.go:154-160 | as many lines up as there are, likewise |
| Editing.Editor.PageDown | internal/tui/editor.go:163-169 | as many lines down as there are, likewise |
| Editing.Editor.SetCursorFromClick | internal/tui/editor.go:203-218 | the place clicked at, or the nearest there is |
| Editing.Editor.EnsureVisible | internal/tui/editor.go:178-200 | the cursor's line shows, its column shows if and only if the width is at least 1, a view that showed it stays put, and one that did not scrolls no further than to its edge |
| Editing.TypeAndErase | internal/tui/editor.go:43-94 | typing a character and erasing it leaves lines and cursor as they were |
| Editing.BreakAndErase | internal/tui/editor.go:57-94 | so does breaking a line and erasing the break |
| RawMessage.RawRequest | internal/core/flow.go:198-221 | start line, host, other headers, a blank line, the body |
| RawMessage.RawResponse | internal/core/flow.go:224-245 | status line, headers, a blank line, the body |
| RawReading.LinesRead | internal/core/flow.go:198-245 | a rendered head falls into its lines, in order |
| RawReading.RequestReads | internal/core/flow.go:198-221 | method, path and version are the words of the first line, and host and headers are read back from the others, in order |
| RawReading.ResponseReads | internal/core/flow.go:224-245 | the headers of a response are read back in order |
| RawReading.StatusLineReads | internal/core/flow.go:224-235 | a status line is version, number and reason, a blank between them |
| RawMessage.SplitOfJoined | internal/proxy/proxy.go:1380-1386 | head and body come apart where they were put together, for all clean heads and all bytes as body |
| RawMessage.SplitOfUnedited | internal/proxy/proxy.go:1380-1386 | a message that went through the editor comes apart at the same place, whatever its bytes |
| RawMessage.ReleaseRequest | internal/proxy/proxy.go:1241-1292 | rendered, edited by nobody and split, a request gives its exact head if and only if every line of it is UTF-8, and its exact body if and only if that is UTF-8 without a CR LF pair |
| RawMessage.ReleaseResponse | internal/proxy/proxy.go:1295-1336 | likewise for a response |
| Plans.ApplyRules | internal/proxy/proxy.go:896-965 | the nested loops over rules and actions give exactly the plan and request headers of the flattened actions |
| Plans.StepWrites | internal/proxy/proxy.go:901-961 | an action overwrites exactly the parts of a plan it is for, with its own content, and keeps the others |
| Plans.StepStops | internal/proxy/proxy.go:934-943 | a break action adds the halves it names and no action takes one back |
| Plans.LastActionWins | internal/proxy/proxy.go:896-965 | across all rules, each overwritten part of a plan holds what its last writer put there |
| Plans.BreaksAccumulate | internal/proxy/proxy.go:934-943 | a half of the exchange is held if and only if some break action names it |
| PlanLaws.FieldsAre | internal/proxy/proxy.go:896-965 | redirect, location, body, status, refusal and file are those of the last action for each, over any rules |
| PlanLaws.HeadersAre | internal/proxy/proxy.go:903-912 | a header action sets its header, a delheader action removes it, the last to name a header decides, and all others stay |
| PlanLaws.BreaksAre | internal/proxy/proxy.go:934-943 | `resp` and `response` hold the response, `both`, `all` and nothing both halves, anything else the request |
| PlanLaws.TagsAre | internal/proxy/proxy.go:896-965 | each action leaves its tags in order, and delays add up |
| PlanLaws.PairReads | internal/proxy/proxy.go:1456-1462 | `name=value` with blanks anywhere around the two is read as those |
| PlanLaws.NameReads | internal/proxy/proxy.go:1456-1462 | without an equals sign the whole is the name |
| PlanLaws.MapLocalReads | internal/proxy/proxy.go:957-961 | a mapping is for the paths under its prefix, and puts the rest of the path under its directory, one slash between |
| PlanLaws.SlashInBetween | internal/proxy/proxy.go:957-961 | a directory written with a slash at its end gets no second one |
| Exchange.Exchange.Handle | internal/proxy/proxy.go:662-892 | for all arrivals, rules, verdicts, upstream outcomes and status codes: state, status, body and what went upstream follow the decision table; the flow shows the request as it came, or as edited; it ends Complete, Error or Blocked and not paused unless its status code is one the library panics on; each stored version is sound and follows the one before, paused exactly while held, tags never lost or repeated, Error and Blocked for good |
| Exchange.OneLineExactly | internal/proxy/proxy.go:662-892 | the flow ends and the client is sent one status line, the recorded one, if and only if no response is dropped and the status code is final; it never gets two |
| Exchange.Exchange.ServeMockFile | internal/proxy/proxy.go:967-987 | the file's content under the override or 200, or a 502 and Error, always tagged |
| Exchange.Exchange.StreamResponse | internal/proxy/proxy.go:1096-1130 | the answer is passed on as it comes, none of its body for 204 and 304, and the capture is cut to the limit |
| Exchange.Exchange.WriteFullResponse | internal/proxy/proxy.go:1132-1156 | one status line, the body unless forbidden, and a Complete record of both |
| Exchange.Exchange.WriteSynthetic | internal/proxy/proxy.go:1159-1184 | one status line and body, recorded, without leaving Blocked or Error |
| Exchange.Exchange.WriteMock | internal/proxy/proxy.go:1186-1218 | one status line and body, recorded Complete and tagged once |
| Exchange.Exchange.Fail | internal/proxy/proxy.go:1220-1229 | a 502 with the message, recorded Error |
| Exchange.Exchange.BreakRequest | internal/proxy/proxy.go:1241-1292 | shown as paused, then not; dropped, edited, or kept as it was received, URL included, as the verdict says |
| Exchange.Exchange.BreakResponse | internal/proxy/proxy.go:1295-1336 | likewise for a response |
| Exchange.Exchange.HoldAndWrite | internal/proxy/proxy.go:874-891 | a held answer is dropped with no status line, or written as released |
| Exchange.Exchange.Forward | internal/proxy/proxy.go:753-891 | exactly one request goes upstream, with redirect, headers and body as decided, or none when it cannot be built; all tags of the rules are recorded |
| ExchangeLaws.PlainPasses | internal/proxy/proxy.go:662-892 | with no rule and no breakpoint the client's own request goes upstream to the completed URL, its body whole if and only if it fits the capture limit, and the server's own answer comes back |
| ExchangeLaws.PlainExchange | internal/proxy/proxy.go:662-892 | the same of the code: what a whole exchange without rules and breakpoints asks and sends |
| ExchangeRules.PassedExchange | internal/proxy/proxy.go:662-892 | for any rules, where none answers and nothing is held: the one request asked has the client's method, the last redirect's URL with only a missing scheme or host filled in, its body up to the limit and its headers as the actions leave them, no hop-by-hop ones; the client is sent the last status and body rules' status and body, or the server's, and nothing for a code the library panics on; the flow shows the request as it came, where it was redirected to, and a tag for each thing changed |
| ExchangeRules.AnsweredExchange | internal/proxy/proxy.go:706-733 | where a rule answers nothing goes upstream: a block comes before a location and that before a file, each with its status and body |
| ExchangeRules.DroppedExchange | internal/proxy/proxy.go:739-748 | a held request that is dropped gives a 502 and nothing goes upstream |
| ExchangeRules.EditedExchange | internal/proxy/proxy.go:1241-1292 | a held request that is edited goes upstream as typed: method, URL, body and headers |
| ExchangeRules.HeldResponse | internal/proxy/proxy.go:870-891 | a held response is dropped without an answer, or sent with the status and body typed |
| ExchangeRules.HopHeadersStay | internal/proxy/proxy.go:779-791 | no header field that belongs to one connection is passed on |
| ExchangeLaws.RequestBodyIsCut | internal/proxy/proxy.go:1412-1425 | for any rules, a request that is not held goes upstream with its whole body if and only if that fits the capture limit |
| ExchangeLaws.LastBlockDecides | internal/proxy/proxy.go:712-720 | an exchange is refused if and only if the last block action's code is not 0 |
| ExchangeLaws.BufferedAnswerIsCut | internal/proxy/proxy.go:835-891 | an answer is sent whole if and only if it is streamed or fits the capture limit |
| ExchangeLaws.PassedOnExact | internal/proxy/proxy.go:739-770 | a held request let through with a blank or unreadable message goes upstream as without the breakpoint if and only if it came with scheme and host, or a redirect names them, or there was none to fill in |
| ExchangeLaws.PassedOnFails | internal/proxy/proxy.go:739-817 | so let through, a request without a scheme fails, unless a redirect names one |
| ExchangeLaws.ReleasedTunnel | internal/proxy/proxy.go:662-817 | the same of the code: a request inside a tunnel, held and released with all others, gives its client a 502 |
| ExchangeLaws.RequestReleasedAsShown | internal/proxy/proxy.go:1241-1359 | a request released as shown goes upstream as without the breakpoint if and only if its body is UTF-8 without a CR LF pair and it was plain HTTP or redirected to a named scheme |
| ExchangeLaws.ResponseReleasedAsShown | internal/proxy/proxy.go:1295-1376 | a response released as shown is answered as without the breakpoint if and only if no rule changed the server's status and its body is UTF-8 without a CR LF pair |
| Store.FlowStore.Add | internal/core/store.go:34-49 | a fresh id at the end, and the oldest beyond the limit is dropped |
| Store.FlowStore.Update | internal/core/store.go:52-62 | changes exactly the flow with that id, if it is retained |
| Store.FlowStore.Snapshot | internal/core/store.go:77-85 | the last flows of the unbounded history of all calls, in order |
| Store.FlowStore.Get | internal/core/store.go:65-74 | the retained flow with that id, or none when there is none |
| Store.FlowStore.Clear | internal/core/store.go:95-100 | nothing is retained and ids go on |
| Store.LastCommutes | internal/core/store.go:34-100 | the retained end of the history takes every call as the whole history does |
| Store.RunKeepsIds | internal/core/store.go:34-49 | in every run ids ascend and none is reused, across Clear |
| Store.HistoryCounts | internal/core/store.go:34-100 | ids count the flows ever added, and the history holds those added since the last Clear |
| Store.HistoryData | internal/core/store.go:34-100 | each flow of the history carries the id of its add and every later update to it |
| Wakeups.Notifier.Subscribe | internal/core/store.go:104-114 | a new subscriber with an empty channel of one |
| Wakeups.Notifier.Notify | internal/core/store.go:117-126 | afterwards every subscriber has a token, and no more than one |
| Wakeups.NoLostWakeup | internal/core/store.go:34-126 | in every interleaving, single sends of one Notify included, a change made after Subscribe is in the last snapshot, or its token is queued, or its Notify is due or has still to send to the subscriber, or the subscriber is about to look |
| Wakeups.QuietMeansCurrent | internal/core/store.go:34-126 | once nothing is under way, a subscriber that missed a change shows the latest store |
| Wakeups.NotifyNeverWaits | internal/core/store.go:104-126 | in every run a Notify can make each of its sends at once, and its subscribers stay until it is done |
| Wrap.WrapLine | internal/tui/views.go:324-402 | with the pads dropped the rows hold exactly the line's runes with their styles, and each is the stretch that fitting, word break and space skipping give, in as few runs as there can be |
| Wrap.WrappedRows | internal/tui/views.go:324-402 | every row takes at least one rune; at 3 cells or more each fits without its trailing spaces; no continuation row starts with a space |
| Wrap.RowFits | internal/tui/views.go:348-400 | pad and text of a row together take at most the width |
| Wrap.HangIs | internal/tui/views.go:339-342 | continuation rows hang under the line's own indent, or at a quarter of the width where that is over a half |
| Wrap.WordsAreKept | internal/tui/views.go:364-384 | a row ends inside a word only if what follows its last space does not fit the next row |
| Wrap.TheRestFits | internal/tui/views.go:364-384 | where a row goes back to a space, all that follows fits one more row |
| Wrap.Fill | internal/tui/views.go:353-361 | the longest stretch that fits, or one rune |
| Wrap.Cut | internal/tui/views.go:364-384 | back to the last space when the remainder then fits one row, and over the spaces after it |
| Wrap.Group | internal/tui/views.go:389-396 | the fewest runs that hold the stretch with its styles |
| Columns.ColumnWidths | internal/tui/table.go:195-270 | with a flexible column, for any shares, the table is exactly as wide as asked or every column is at most 3; flexible columns are at least 3; fixed ones never grow, and shrink only while as wide as any, give or take one cell |
| Columns.Clip | internal/tui/table.go:247-269 | only the widest columns are narrowed, one cell at a time, none below 3, and only as far as needed |
| Columns.Share | internal/tui/table.go:196-246 | before clipping, fixed columns are as asked, flexible ones at least 3, and the table at least as wide as asked |
| Columns.FitCell | internal/tui/table.go:184-193 | a cell takes exactly its width, whatever its text: the shortened text with the blanks in front, behind, or half on either side as the column is aligned |
| Columns.CellIsExact | internal/tui/screen.go:180-230 | shortening and padding give exactly the width, so borders line up |
| Columns.ShortenedIsLongest | internal/tui/screen.go:180-199 | a text is shortened if and only if it does not fit, and keeps the longest beginning that leaves room for the ellipsis |

## Left out

* Sockets, TLS, certificates, tunnels, WebSocket and other upgrades (internal/proxy/proxy.go:1004-1090), the HTTP library's parsing and transport: calls into code outside the model.
* The terminal's size does not change along a chain of draws: on a resize both buffers are cleared and the terminal is not (internal/tui/app.go:426-429).
* The escape text of styles and cursor moves, themes, views, key bindings, `Fill`, `DrawBox`, `DrawTable`: no property beyond the members modelled.
* Terminal emulators differ in what attributes a blanked half glyph keeps; the proofs hold for both choices. Combining and zero-width runes print nothing.
* Header fields, URLs and the texts of rules and filters are texts; bytes in them that are not UTF-8 are modelled in the raw messages only.
* Regular expressions, Unicode case mapping, durations, files and JSON are parameters; where case mapping matters, `RuleLaws.CaseOk` and `QueryAtoms.CaseOk` say what is used of it.
* Time: the 25 ms timeout is a symbol in the input stream, delays and timestamps are dropped. A pause inside a sequence ends it, and the round trip is about streams without one.
* `splitNums` trims ASCII white space only; bytes from 0x80 cannot stand before a final byte of a sequence the encoder sends.
* Concurrent readers of the filter set: `queries` can keep a list compiled before a concurrent change (internal/core/filter.go:140-163), so the cache is proved for calls one after another.
* Aliasing: pointers to rules, filters and flows handed out by `Add`, `Match` and `List` are values here, so a caller that changes one afterwards is not modelled. `cells` is an array changed in place; lines, filters, rules and flows are sequences the methods reassign.
* The recovery copy is written atomically, calls on the controller do not overlap, every process starts with
  `RecoverStale`, and settings are edited by others only while the proxy is off and no copy is on disk.
* SysRuns.EveryRunIsCrashSafe: is about runs without a hazard, because the code does lose the original in
  some; SysRuns.RunExact says in which.
* Targets.SplitOfTarget: a port text beyond 64 bits reads as 0, where Go's `Atoi` gives the nearest int; no target the controller makes holds one.
* DarwinRollback.MacRollbackExact: is for lists of services none of which is named twice.
* EnableLaws.MacRunPointsExactly: likewise.
* RuleMatch.Match: compiles the expression anew, where the code keeps it from the time the rule was stored.
* DarwinProxy.MacUndoable: is for a fixed list of network services; a service added or removed between snapshot and restore is not modelled.
* Quote stripping of the settings tool's output on GNOME, and the Windows registry.
* Exchange.Exchange.Handle: the flow stays retained by the store, and the exchange is no upgrade. Response headers,
  their rewriting and reason phrases are dropped; header names are taken as they stand.
* A handler that writes no body and no final status line makes the HTTP library answer 200 by itself, and codes from
  100 to 199 are announced before that; neither is part of this model.
* Breaker.Queue.Enqueue: is the locked part only; the channel of a breakpoint is in the machine that `Breaker.StepKeepsInv` is about.
* `wrapLines`, `FormatBytes`, `mimeFor` and the sanitising of `Accept-Encoding` are left out.
* Columns.ColumnWidths: the floating-point share of a flexible column is an arbitrary integer, which the drift and clip steps make immaterial to what is proved.
