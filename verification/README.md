# Verified models of a reverse proxy's state

GoDoxy is a reverse proxy for containers. This project models the parts of it whose behaviour is decided by its own
code over unbounded inputs or runs, and proves what each of them is for. Loops over variables and objects with fields
are methods and classes with loop invariants, proved equal to a specification function; the properties are lemmas about
that function, or about every run of a step relation where several processes take turns.

## What is modelled

**Access-log rotation** (`LogLines`, `LogFile`, `BackScanner`, `Rotate`). A scanner reads a file backwards in chunks; a
retention policy counts lines from the end; kept lines are merged into segments and moved to the front of the same
file. The result is the plain meaning: split into lines, keep, write out. `last N` counts an invalid line as one more
line to read without giving up a kept one, and the exact condition under which it keeps N lines is proved.

**The rule language** (`RuleParser`, `RuleParserLaws`, `Pipes`, `Conditions`, `ConditionLaws`, `Vars`, `VarsArguments`,
`VarsNames`, `RuleCommands`, `RuleEngine`, `RulePhases`, `RuleRuns`, `RuleOutcomes`). A parser with quotes, escapes and environment variables; a splitter of conditions into conjunctions and
alternatives with its recursive consumer; a template expander; and the engine that runs rules before and after the
upstream. A run of the engine is the sequence of its events, and checks and handlers are arbitrary functions of what
has happened so far, so every statement about a run holds for all requests, responses and handlers.

**The idle watcher** (`DepGraph`, `Dependencies`, `Wake`, `WakeCalls`, `WakeHealth`, `DedupWake`, `WatchLoop`,
`Notification`, `IdleWatcher`). Reduction of the dependencies of a container on the heap, recursive waking as interleaved tasks, what the
one does to the other, and the container state, its waiters and its health ticker over all runs of the watch loop.

**Certificates** (`Dotted`, `SniMatcher`, `SniLaws`, `Renewal`, `RenewalAnswers`). A suffix tree on the heap that agrees with a linear scan, and the
handshake between callers that force a renewal, waiters and the scheduler, in every interleaving.

**The tunnel header** (`Octet`, `Crc32`, `StreamHeader`). Layout, round trip, and detection of damage to four bytes by
the checksum of section 8 of RFC 1952.

**Container labels** (`Decimal`, `Wildcard`, `WildcardText`, `Labels`, `LabelParsing`). Expansion of wildcards over aliases and nesting
of dotted labels, with every map walked in an arbitrary order.

**Smaller machines** (`Health`, `Acl`, `Ring`). Notifications over all histories of checks, an access decision behind
two caches, and a ring of samples.

## Where the program does not do what it says

Each of these has a lemma with a concrete input, and beside it what holds for all inputs.

- `last N` can keep more than N valid lines (`Rotate.LastOneKeepsTwo`; exactly when: `Rotate.LastKeepsNExactlyWhen`, and
  which: `Rotate.KeptByLast`).
- `ForceExpiryAll` returns false for "dropped" although a renewal will follow (`Renewal.FalseIsNotDropped`; what the
  answer tells in every run: `Renewal.AnswerAndRenewal`), and a done channel can be closed before the renewal it asked for
  has begun (`Renewal.ClosedBeforeForcedRenewal`; exactly when: `Renewal.ForcedIff`).
- A dependency that must be healthy is not waited for when it is already starting (`Wake.StartingIsNotAwaited`; exactly
  when: `Wake.WaitedIff`).
- Deduplication can lose a healthy requirement: what another dependency brings in is dropped, and that one need not require
  health (`WakeHealth.LostByReduction`, `DedupWake.RequirementLost`, `DedupWake.ReduceListed`), or may be skipped as
  starting (`WakeHealth.DroppedRequirementLost`); and of two entries for one container the later counts
  (`Dependencies.LaterEntryWins`). Which are kept: `Dependencies.DedupKeepsExactly`; exactly when every start still waits
  for health: `WakeHealth.AlwaysHealthyIff`, and after the reduction `DedupWake.DedupThenWake`.
- A reload can be overwritten by the result of a check that is under way (`WatchLoop.ReloadDuringCheck`), or let a container
  pass for ready that it has just found stopped (`WatchLoop.ReloadBeforeLoad`; exactly when: `WatchLoop.SurvivesIff`, over
  runs: `WatchLoop.SerialRun`, `WatchLoop.ApartRun`).
- A reload of a ready container leaves it without checks until the next start event (`Notification.ReloadStopsChecks`; for
  all runs: `Notification.ReloadedStaysUnready`, `Notification.TickingIff`).
- One token answers one waiter: of several that wait when the container becomes ready all but one stay blocked
  (`Notification.SecondStaysBlocked`; exactly when: `Notification.AllReleasedIff`, `Notification.StrandedUntilStart`). And a
  token for which nobody waited tells a later waiter that a starting container is ready (`IdleWatcher.StaleToken`,
  `Notification.StaleTokenPending`; exactly when: `Notification.TokenIff`).
- The detail shown for a watched container says "starting" when it is ready (`WatchLoop.ReadyIsShownStarting`), and only
  then (`WatchLoop.ShownMeans`).
- Template validation accepts a negative index, which goes out of range when the key has a value
  (`Vars.NegativeInstance`, `Vars.NegativeCrashes`; exactly when: `Vars.SafeIffNonNegative`).
- A rule without commands is accepted; when it matches it panics, and takes the upstream and the later rules with it
  (`RuleRuns.EmptyRuleInstance`, `RuleRuns.EmptyRulePanics`; exactly when: `RuleRuns.PanicIff`, and from
  the rules alone: `RuleRuns.PanicFreeIff`).
- A parenthesis counts inside quotes. One left open there hides the pipes after it, up to the parenthesis that closes it
  (`Pipes.QuotedParenthesisHides`, `Pipes.ClosedParenthesisShows`; exactly when: `Pipes.OpenParenthesisIff`,
  `Pipes.SplitsAtVisiblePipes`); and if that stands in another quoted text the rest of that text is no longer quoted, so
  that its pipes split (`Pipes.QuotedPipeSplits`; for all lines: `Pipes.SplitsRightIff`). An argument with unbalanced
  brackets is refused even when quoted (`RuleParser.UnbalancedIsRefused`; exactly when, for every list:
  `RuleParser.QuotingIsFaithful`).
- The short handler for a default rule alone loses commands of a rule that checks the response and ends in a bypass
  (`RuleRuns.ShortcutInstance`; exactly when: `RuleRuns.ShortcutIffGeneral`).
- Label sets in which one path is above another parse differently in different orders (`Labels.OrderMatters`; exactly when:
  `Labels.OrderMattersIff`, and before the expansion `LabelParsing.TidyIff`, `LabelParsing.PrefixFreeIff`).
- A repeated alias leaves a gap in the numbers, and a discovered alias may then share a number with it
  (`Wildcard.RepeatedAliasCollides`; exactly when: `Wildcard.NumbersIff`, `Wildcard.CollidesIff`).
- The comment in `internal/docker/README.md:261` presents an explicit label as overriding a wildcard. In the program a
  wildcard value replaces the explicit value of the same suffix, and the model follows the program
  (`Wildcard.ExplicitIsReplaced`; for all labels: `Wildcard.WildcardWins`).

## Model

| member | source | states |
|---|---|---|
| `LogLines.LinesAcrossNewline` | internal/logging/accesslog/back_scanner.go:53-123 | the lines of two texts joined by a newline are the lines of both |
| `LogLines.LinesOfUnlines` | internal/logging/accesslog/rotate.go:168-182 | writing lines out and splitting again gives the same lines |
| `LogLines.UnlinesOfLines` | internal/logging/accesslog/rotate.go:116-151 | a newline-terminated file without blank lines is its own lines written out |
| `BackScanning.BackScanner.Scan` | internal/logging/accesslog/back_scanner.go:53-123 | each successful scan takes exactly the last line off the unread text, which shrinks; without an error it fails only when no line is left |
| `BackScanning.BackScanner.Prepend` | internal/logging/accesslog/back_scanner.go:83-118 | reading a chunk before the buffer does not change the unread text, for any chunk size |
| `BackScanning.BackScanner.CutChunk` | internal/logging/accesslog/back_scanner.go:61-68 | cutting at the last newline takes one line, or none when it is empty, off the unread text |
| `BackScanning.BackScanner.TakeRest` | internal/logging/accesslog/back_scanner.go:71-81 | what is left without a newline is the first line |
| `BackScanning.Collect` | internal/logging/accesslog/back_scanner.go:53-133 | scanning to the end yields exactly the non-empty lines in reverse, for every content and every chunk size of at least one, and a prefix of that after a read error |
| `Rotate.RotateByPolicy` | internal/logging/accesslog/rotate.go:82-185 | the file becomes exactly the kept lines in their order, its size is NumBytesKeep, the result tells whether it changed, and the lines read, kept and invalid are counted; an error of the scan leaves it as it was, one of a move leaves its length, one of the truncation leaves the kept lines at its front, or all of it when none is kept |
| `Rotate.CollectSegments` | internal/logging/accesslog/rotate.go:98-155 | the backward scan leaves segments whose text is the kept lines, with the right counts of lines and bytes: those read are the kept and the invalid ones of a suffix, and the valid line that made it stop |
| `Rotate.ScanLine` | internal/logging/accesslog/rotate.go:116-151 | one turn of the scan keeps the relation between lines read, lines kept and segments |
| `Rotate.CountLine` | internal/logging/accesslog/rotate.go:117-151 | the stop rule, the counters and the merging of adjacent kept lines |
| `Rotate.AddLineText` | internal/logging/accesslog/rotate.go:136-150 | growing a segment or opening one puts exactly the bytes of the line in front |
| `Rotate.MoveStep` | internal/logging/accesslog/rotate.go:168-178 | moving a segment to the front leaves every segment still to be moved as it was |
| `Rotate.FileContentMove` | internal/logging/accesslog/rotate.go:190-215 | one read and one write to an earlier place copy exactly the segment, also when the two overlap |
| `Rotate.Compact` | internal/logging/accesslog/rotate.go:168-178 | all moves together leave the text of all segments, oldest first, at the front |
| `Rotate.KeptByDays` | internal/logging/accesslog/rotate.go:90-151 | a policy by age keeps the valid lines of a suffix that are all recent, up to the first valid line that is not |
| `Rotate.KeptByLast` | internal/logging/accesslog/rotate.go:87-134 | whatever the lines, `last N` keeps the valid lines of a suffix: either all of them are in it, or it follows a valid line and its valid lines outnumber its invalid ones by exactly N; at no later valid line had they |
| `Rotate.KeptIsValidSuffix` | internal/logging/accesslog/rotate.go:85-151 | every policy keeps the valid lines of a suffix |
| `Rotate.KeptByCount` | internal/logging/accesslog/rotate.go:87-151 | with only valid lines the counter takes as many more lines as it still wants |
| `Rotate.LastKeepsLastN` | internal/logging/accesslog/rotate.go:87-151 | with only valid lines `last N` keeps the last min(N, total) lines |
| `Rotate.LastKeepsNExactlyWhen` | internal/logging/accesslog/rotate.go:88 | `last N` keeps min(N, valid) lines if and only if there are at most N valid lines or no invalid line comes before the scan has met N+1 valid ones |
| `Rotate.LastOneKeepsTwo` | internal/logging/accesslog/rotate.go:87-151 | an instance: `last 1` on two valid lines with an invalid one behind them keeps both |
| `Rotate.AllKeptIfFew` | internal/logging/accesslog/rotate.go:87-151 | with no more valid lines than wanted all of them are kept |
| `RuleParser.Parse` | internal/route/rules/parser.go:34-174 | the loop over its variables is the state machine, including errors, missing variables and the index out of range at characters of 256 or more |
| `RuleParser.FlushToken` | internal/route/rules/parser.go:46-67 | ending a token trims its leading spaces and makes it the subject or an argument |
| `RuleParser.RunAppend` | internal/route/rules/parser.go:69-155 | parsing a text is parsing its parts one after the other |
| `RuleParser.RunEscape` | internal/route/rules/parser.go:69-155 | scanning an escaped argument inside quotes appends the argument itself, unless its brackets close one too many |
| `RuleParser.RunVar` | internal/route/rules/parser.go:98-127 | a variable inside quotes is replaced by its value, or reported when it is not set |
| `RuleParser.RunArgs` | internal/route/rules/parser.go:69-155 | written arguments are read in order, each as what it stands for |
| `RuleParser.WritingIsFaithful` | internal/route/rules/parser.go:34-174 | a directive written from plain words, quoted texts and variables parses to its subject and the values of its arguments, in order, and reports exactly the variables that are not set |
| `RuleParser.QuotingIsFaithful` | internal/route/rules/parser.go:34-174 | for every list of arguments: a plain subject followed by them, quoted, parses to exactly that subject and those arguments, without an error, if and only if each argument keeps its brackets balanced and is of characters below 256; and ends in an error if and only if one does not |
| `RuleParser.ListCloses` | internal/route/rules/parser.go:34-174 | a quoted list after which no quote and no bracket is open was read from a state with none open, and all its arguments are balanced |
| `RuleParser.QuotingOneExactly` | internal/route/rules/parser.go:34-174 | one quoted argument comes back if and only if its brackets balance, and otherwise the only error is that of open brackets |
| `RuleParser.UnbalancedIsRefused` | internal/route/rules/parser.go:34-174 | instances: an error for an argument that opens a bracket, for one that closes it, and for the two in a row |
| `RuleParserLaws.EscapeMeans` | internal/route/rules/parser.go:11-96 | in any state a backslash and a character stand for a line break, a tab, a carriage return, that quote, backslash or blank, or for themselves |
| `RuleParserLaws.DollarMeans` | internal/route/rules/parser.go:69-127 | a dollar sign before neither another one nor a brace stands for itself, and two stand for one |
| `RuleParserLaws.BraceMeans` | internal/route/rules/parser.go:98-127 | braces that belong to no variable stand for themselves |
| `RuleParserLaws.QuotesMean` | internal/route/rules/parser.go:128-155 | after a subject a text in quotes of any of the three kinds is one argument as it stands, blanks and the other quotes included |
| `RuleParserLaws.OpenEnds` | internal/route/rules/parser.go:156-174 | a bracket that stays open, one that was not opened and a variable that is not ended are errors |
| `Pipes.SplitPipe` | internal/route/rules/on.go:511-567 | the scanner's loop gives the trimmed parts between top-level pipes, dropping nothing after a last pipe |
| `Pipes.JoinRaw` | internal/route/rules/on.go:523-564 | before trimming, joining the parts with pipes gives the line back |
| `Pipes.RawWhole` | internal/route/rules/on.go:523-564 | no part has a top-level pipe when it is scanned from the initial state |
| `Pipes.PartsDoNotSplit` | internal/route/rules/on.go:511-567 | a part, trimmed, splits into at most one part again |
| `Pipes.SplitsAtVisiblePipes` | internal/route/rules/on.go:523-564 | a line of plain characters, escapes, quoted texts, texts in parentheses and pipes, in which every quoted text closes the parentheses it opens, is split exactly at the pipes |
| `Pipes.PartsOfVisible` | internal/route/rules/on.go:511-567 | the parts of such a line are the texts between its pipes, each trimmed, without the last when nothing at all stands after the last pipe |
| `Pipes.SplitsRightIff` | internal/route/rules/on.go:523-564 | for any tokens at all: the line is split as it is seen if and only if the scanner is in its initial state at every pipe and nothing else splits |
| `Pipes.OpenParenthesisIff` | internal/route/rules/on.go:523-564 | for any line of readable tokens in which no exposed text opens or escapes anything itself: it is split as it is seen if and only if no pipe is met while a parenthesis or a quote is open and none is exposed, where a quoted text in which the last open parenthesis is closed exposes its rest and its closing mark opens a quote |
| `Pipes.QuotedParenthesisHides` | internal/route/rules/on.go:523-564 | an instance: the pipe after an open parenthesis in quotes is hidden |
| `Pipes.ClosedParenthesisShows` | internal/route/rules/on.go:523-564 | an instance: when the quoted text closes it, the pipe splits |
| `Pipes.QuotedPipeSplits` | internal/route/rules/on.go:523-564 | an instance: where an open parenthesis is closed within another quoted text, a pipe in that text splits |
| `Conditions.SplitAnd` | internal/route/rules/on.go:472-507 | the loop with its two stop conditions gives the non-empty trimmed pieces between separators, in order |
| `Conditions.TrimAscii` | internal/route/rules/on.go:484-494 | the two scans trim ASCII space from both ends, also of a piece that is all space |
| `Chars.TrimIs` | internal/route/rules/on.go:549-564 | trimming takes all white space off both ends and nothing else |
| `Chars.SpacesAndQuotes` | internal/route/rules/parser.go:128-155 | which characters are white space and which are quotes, by number |
| `Conditions.AndPartsClean` | internal/route/rules/on.go:470-507 | no piece is empty or holds a separator |
| `Conditions.AndPartsOfWritten` | internal/route/rules/on.go:470-507 | clean pieces written with a separator and blanks around it come back as they were |
| `Conditions.ParseLine` | internal/route/rules/on.go:606-659 | the recursive parser of a line ends, and gives its alternatives in order or the error |
| `Conditions.AltsAreFuncs` | internal/route/rules/on.go:609-628 | the type assertion on an alternative never fails: each is one target, in the order written |
| `Conditions.AltsNeedResponse` | internal/route/rules/on.go:611-628 | alternatives need the response if and only if one of them does |
| `Conditions.AssertionHolds` | internal/route/rules/on.go:620 | no line makes the type assertion fail |
| `Conditions.LineMeans` | internal/route/rules/on.go:606-659 | an accepted line holds if and only if one of the alternatives written on it does |
| `Conditions.NegationFlips` | internal/route/rules/on.go:630-657 | a target written with its arguments is read as that target, and an exclamation mark in front makes it hold exactly when it did not |
| `Conditions.Parse` | internal/route/rules/on.go:570-596 | a whole condition is the list of its lines' checkers, or errors |
| `Conditions.RuleMeans` | internal/route/rules/check_on.go:16-34 | an accepted condition holds if and only if on each line one of the written alternatives does |
| `ConditionLaws.ParseOneIff` | internal/route/rules/on.go:630-659 | a single target is accepted if and only if it parses without an error or a missing variable, is known behind its exclamation mark, and its arguments suit it; it is then that target, negated by an exclamation mark, with its own flag for the response |
| `ConditionLaws.LineAcceptedIff` | internal/route/rules/on.go:606-659 | a line is accepted if and only if every alternative on it is, and crashes the reader if and only if one does |
| `ConditionLaws.RuleAcceptedIff` | internal/route/rules/on.go:570-596 | a condition is accepted if and only if all its lines are, waits for the response if and only if one of them does, and crashes the reader if and only if one does |
| `Vars.ExpandVars` | internal/route/rules/vars.go:54-133 | expansion is the evaluation of pieces that depend on the template alone |
| `Vars.ExpandOne` | internal/route/rules/vars.go:58-129 | one turn of the loop writes what one piece stands for, or ends the expansion |
| `Vars.ExpandVar` | internal/route/rules/vars.go:85-128 | a name is read whole, then looked up as a function, a variable, or an error |
| `Vars.ExpandDynamic` | internal/route/rules/vars.go:98-108 | a function's arguments are read and checked before its getter is asked |
| `Vars.ScanArguments` | internal/route/rules/vars.go:137-212 | the arguments and the place after their closing parenthesis, or which delimiter is missing |
| `Vars.ValidateVars` | internal/route/rules/vars.go:50-52 | validation answers exactly the template's own mistake |
| `Vars.DummyAnswers` | internal/route/rules/vars.go:39-52 | no getter fails on the dummy request |
| `Vars.AcceptedExpands` | internal/route/rules/vars.go:54-133 | an accepted template without negative indices expands, for every request whose form can be parsed if it is used, to the left-to-right concatenation of its pieces' texts |
| `Vars.FormIsAllThatFails` | internal/route/rules/vars_dynamic.go:41-66 | such a template fails for a request if and only if it uses the form and the form cannot be parsed |
| `Vars.NegativeCrashes` | internal/route/rules/vars_dynamic.go:69-91 | a negative index is out of range for a request that has a value for its key |
| `Vars.NegativeInstance` | internal/route/rules/vars_dynamic.go:69-91 | an instance: an accepted template with the index -1, and a request for which it goes out of range |
| `Vars.SafeIffNonNegative` | internal/route/rules/vars_dynamic.go:69-91 | an accepted template is safe for every request if and only if no index is negative |
| `Vars.CompileOfWrite` | internal/route/rules/vars.go:54-212 | reading a template written from pieces gives exactly those pieces |
| `Vars.TwoQuoted` | internal/route/rules/vars.go:137-212 | two quoted arguments are read back as they were |
| `VarsArguments.ListRead` | internal/route/rules/vars.go:137-212 | any list of arguments, each bare or in quotes of any kind, with blanks after the commas, is read as their texts |
| `VarsArguments.VariableRead` | internal/route/rules/vars_dynamic.go:69-91 | written in any such way, a variable with one argument stands for the first value of that key and with two for the one at the index; no argument, more than two, and an index that is no number are each an error of its own |
| `VarsArguments.ValueAt` | internal/route/rules/vars_dynamic.go:69-91 | a key and an index stand for the value at that place up to a number sign, or for nothing when there are not so many |
| `VarsArguments.FormFails` | internal/route/rules/vars_dynamic.go:41-66 | the two variables that read the form fail when it cannot be parsed |
| `VarsArguments.FirstValue` | internal/route/rules/vars_dynamic.go:80-84 | an instance: `$header(X)` is the one value of X |
| `VarsNames.NameRead` | internal/route/rules/vars.go:85-122 | a name is read as far as its letters and underscores go: one of the twenty-three plain variables stands for itself, a function without a parenthesis after it and any other name are each an error of its own |
| `VarsNames.DollarRead` | internal/route/rules/vars.go:66-83 | two dollar signs stand for one, one before a brace is kept, and one at the end or before anything else is an error |
| `VarsNames.TextRead` | internal/route/rules/vars.go:58-65 | any other character stands for itself |
| `VarsNames.OpenArguments` | internal/route/rules/vars.go:137-212 | arguments whose parenthesis is not closed, and those whose quotes are not, are each an error of its own |
| `Decimal.AtoiOfFormat` | internal/route/rules/vars_dynamic.go:84 | a written 64-bit index is read back |
| `Decimal.AtoiIff` | internal/route/rules/vars_dynamic.go:84 | exactly the texts of an optional sign and digits whose number is of 64 bits are read, and as that number |
| `Decimal.Places` | internal/docker/label.go:18-24 | a digit behind others has the lowest place |
| `RuleCommands.BuildCmd` | internal/route/rules/do.go:575-609 | accepted are exactly: non-terminating commands, at most one terminating or bypass command, response handlers |
| `RuleCommands.RunCommands` | internal/route/rules/command.go:63-70 | the loop over commands runs them until one does not end in order |
| `RuleCommands.RunInOrder` | internal/route/rules/command.go:63-70 | commands run from the first without gap, and only the last to run may end the request |
| `RuleCommands.HandleEnds` | internal/route/rules/command.go:36-70 | from the answers of the commands alone: all that ran but the last were answered in order and end nothing; the result is in order if and only if all ran, so answered, and none ends the request; otherwise it is the answer of the last, or that the request is ended |
| `RuleCommands.EndedNotDone` | internal/route/rules/command.go:36-60 | a sequence that ends in a terminating or bypass command never ends in order |
| `RuleCommands.EndExcludesResponse` | internal/route/rules/do.go:575-626 | such a sequence, if accepted, holds no response handler |
| `RuleEngine.BuildHandler` | internal/route/rules/rules.go:75-156 | the last default rule, the phases as increasing lists of exactly their rules, and the shorter handlers for default rules alone |
| `RuleEngine.Partition` | internal/route/rules/rules.go:144-152 | every rule that is not a default is in exactly the list of its phase, in order |
| `RuleEngine.ServePre` | internal/route/rules/rules.go:187-204 | the loop before the response: a bypass ends it without running, a failure ends it and the request |
| `RuleEngine.ServePost` | internal/route/rules/rules.go:230-240 | the loop after the response |
| `RuleEngine.ServeGeneral` | internal/route/rules/rules.go:158-243 | the closure's branches give the five parts of a run |
| `RuleEngine.ServeRequest` | internal/route/rules/rules.go:107-142 | each form of handler gives its run |
| `RulePhases.ScanChecked` | internal/route/rules/rules.go:188-203 | within a phase a rule is checked if and only if no earlier one stopped it |
| `RulePhases.ScanHandled` | internal/route/rules/rules.go:189-195 | within a phase a rule acts if and only if it matched, unless it bypasses |
| `RulePhases.ScanVerdict` | internal/route/rules/rules.go:187-204 | the phase proceeds if and only if every rule that acted ended in order, and has matched if and only if some check did |
| `RulePhases.ScanPanics` | internal/route/rules/rules.go:187-240 | a phase is cut off if and only if a handler in it panicked |
| `RuleRuns.RunOrdered` | internal/route/rules/rules.go:158-243 | every run is in the order: default rule that goes first, rules before the response by number, terminating default, upstream at most once, rules after it by number, default on the response |
| `RuleRuns.UpstreamIff` | internal/route/rules/rules.go:170-222 | the upstream is called if and only if no rule that acted before the response ended out of order |
| `RuleRuns.TerminatingDefaultIff` | internal/route/rules/rules.go:206-218 | a terminating default rule acts if and only if no rule before the response matched |
| `RuleRuns.OtherDefaultsIff` | internal/route/rules/rules.go:173-184 | a default rule that does not terminate always acts first; one on the response acts if and only if nothing cut that phase short |
| `RuleRuns.EarlyCheckedIff` | internal/route/rules/rules.go:186-204 | a rule before the response is checked if and only if the default did not end the request first and no earlier rule failed, ended or bypassed |
| `RuleRuns.LateCheckedIff` | internal/route/rules/rules.go:206-240 | a rule after the response is checked if and only if nothing before the response panicked, no terminating default failed and no earlier rule of that phase ended out of order |
| `RuleRuns.PanicInTrace` | internal/route/rules/rules.go:170-222 | the phase after the response is skipped for a panic if and only if a handler before it panicked |
| `RuleRuns.PanicIff` | internal/route/rules/do.go:554-559 | when no command panics itself, a run of the handler of any rule list holds a panic if and only if it handles a rule without commands, default and late rules included |
| `RuleRuns.PanicFreeIff` | internal/route/rules/do.go:554-559 | in no world without panicking commands does the handler of a rule list panic, if and only if every rule that is no default, and the last default, has commands |
| `RuleRuns.EmptyRulePanics` | internal/route/rules/do.go:554-559 | a rule without commands that matches before the response panics, the upstream is not called and no rule after the response is checked |
| `RuleRuns.EmptyRuleInstance` | internal/route/rules/do.go:554-559 | an instance: one rule without commands that matches everything panics and the upstream is not called |
| `RuleRuns.ActsIffMatched` | internal/route/rules/rules.go:188-240 | a rule acts if and only if it was checked and matched, unless it bypasses before the response |
| `RuleRuns.RunFaithful` | internal/route/rules/rules.go:268-274 | every check in a run is recorded with the answer it got at that moment |
| `RuleRuns.ShortcutIffGeneral` | internal/route/rules/rules.go:107-142 | for a default rule alone the short form has the effects of the general one if and only if the rule does not both check the response and end a longer sequence with a bypass |
| `RuleRuns.ShortcutInstance` | internal/route/rules/rules.go:107-142 | an instance: of a default rule on a response check with a command and a bypass the short form loses the command |
| `RuleRuns.EveryHandler` | internal/route/rules/rules.go:75-244 | for the handler built from any rule list: upstream at most once, nothing of the first phase after it, nothing of the second before it, and called if and only if nothing before the response ended out of order |
| `RuleOutcomes.HandlerTold` | internal/route/rules/command.go:36-70 | in every run of the handler of any rule list each rule that acts ends as its commands answered, each at its own moment |
| `RuleOutcomes.DoneIff` | internal/route/rules/command.go:63-70 | it ends in order if and only if all its commands ran, each was answered in order and none bypasses or ends the request |
| `RuleOutcomes.UpstreamByCommands` | internal/route/rules/rules.go:170-222 | for every rule list and every run: the upstream is called if and only if every rule that acted before the response had all its commands so answered |
| `RuleOutcomes.DefaultActsIff` | internal/route/rules/rules.go:155-242 | from the rules themselves: a default rule for the response acts unless that phase does not begin or is stopped, a terminating one if and only if no rule before the response matched, a bypassing one never, any other always |
| `RuleOutcomes.CheckedIff` | internal/route/rules/rules.go:186-240 | from the rules themselves: a rule is checked if and only if no earlier one of its phase stopped or bypasses and the phase begins |
| `RuleOutcomes.ActsIff` | internal/route/rules/rules.go:188-240 | a rule acts if and only if it was checked and matched, unless it is one before the response that ends in a bypass |
| `RuleOutcomes.FailingCommand` | internal/route/rules/rules.go:189-195 | an instance: one command that fails, and the upstream is not called |
| `DepGraph.ReachIsReachability` | internal/idlewatcher/watcher.go:658-667 | what is collected below a watcher is what its edges reach |
| `DepGraph.DroppedIsBelow` | internal/idlewatcher/watcher.go:641-650 | a dropped dependency is reachable from a kept one |
| `DepGraph.Reduction` | internal/idlewatcher/watcher.go:639-656 | dropping indirect dependencies keeps reachability for every watcher and leaves none reachable from another |
| `Dependencies.Collect` | internal/idlewatcher/watcher.go:658-667 | the recursive walk over the heap gathers everything below a watcher, once |
| `Dependencies.Remaining` | internal/idlewatcher/watcher.go:641-650 | what remains are the direct dependencies that no other brings in |
| `Dependencies.DedupDependencies` | internal/idlewatcher/watcher.go:639-656 | a watcher keeps exactly those, each as it was last listed, and its configuration names them |
| `Dependencies.DedupKeepsExactly` | internal/idlewatcher/watcher.go:639-656 | a requirement is kept as it was if and only if it is the last one listed for its watcher and no other direct dependency reaches that; every watcher reaches what it reached |
| `Dependencies.LaterEntryWins` | internal/idlewatcher/watcher.go:639-667 | an instance: of a healthy and a later plain requirement for one container the plain one is kept |
| `Dependencies.DedupIsReduction` | internal/idlewatcher/watcher.go:639-667 | afterwards every watcher reaches what it reached, and no remaining dependency reaches another |
| `Wake.StepKeepsInv` | internal/idlewatcher/watcher.go:373-482 | every step of every task keeps the order of starts |
| `Wake.DependenciesFirst` | internal/idlewatcher/watcher.go:373-482 | in every interleaving a start or unpause is issued, and the container is looked at, only after each direct dependency was skipped by its own wake as starting, or was seen running or starting or had its start issued; one that must be healthy was then seen healthy |
| `Wake.FinishedMeansWoken` | internal/idlewatcher/watcher.go:373-403 | a call that ended well saw its container starting or running, or issued its start or unpause; a child that must wait for health saw it healthy |
| `Wake.StartingIsNotAwaited` | internal/idlewatcher/watcher.go:419-423 | an instance: a dependency that must be healthy is starting and is not waited for |
| `Wake.WaitedIff` | internal/idlewatcher/watcher.go:412-455 | in every run a task that is past joining met each dependency once, and has waited for it, for its health too where required, if and only if the container was not starting at that moment |
| `WakeCalls.CallByStatus` | internal/idlewatcher/watcher.go:457-482 | in every run the task that leads a flight starts a container that it found stopped, unpauses one that it found paused and makes no call otherwise; the flight fails on an error status, without a provider, or with the call |
| `WakeCalls.CallsFollowStatus` | internal/idlewatcher/watcher.go:457-482 | in every run every start was issued after its task found the container not starting and then stopped, and every unpause after it found it not starting and then paused |
| `WakeCalls.StartingIsWoken` | internal/idlewatcher/watcher.go:380-403 | in every run a task that finds its container starting has woken it without a call, and one that does not goes on to the flight |
| `WakeCalls.SightingsAreTrue` | internal/idlewatcher/watcher.go:373-455 | in every run a container that was seen starting, running or healthy was so at that moment |
| `WakeCalls.OneAtATime` | internal/idlewatcher/watcher.go:386-403 | in every run at most one task at a time leads the flight of a container |
| `WakeCalls.FollowerEnds` | internal/idlewatcher/watcher.go:386-403 | a task that follows ends as an earlier flight of its own container landed |
| `WakeHealth.HealthAlong` | internal/idlewatcher/watcher.go:373-482 | a healthy requirement at the end of any chain of dependencies is met before the first container is started or seen up, unless a dependency on the way was skipped; it makes no difference which of them had to be started |
| `WakeHealth.AlwaysHealthyIff` | internal/idlewatcher/watcher.go:373-482 | every run without skips sees d healthy before it starts or unpauses a if and only if a, or something it reaches, requires that |
| `WakeHealth.StartedUnhealthy` | internal/idlewatcher/watcher.go:373-482 | otherwise there is a run, from containers each stopped or paused in any way, that starts or unpauses a and never sees d healthy |
| `WakeHealth.LostByReduction` | internal/idlewatcher/watcher.go:639-656 | an instance: app needs a healthy db, and cache, which needs db; as listed every run sees db healthy first, after the reduction one does not |
| `WakeHealth.DroppedRequirementLost` | internal/idlewatcher/watcher.go:419-423 | an instance: the dependency that a requirement is left to is skipped as starting, and the requirement is not met |
| `DedupWake.DedupThenWake` | internal/idlewatcher/watcher.go:639-667 | after the dependencies of a watcher are reduced, every run without skips sees d healthy before it starts a if and only if something at or below a requires it, and keeps that requirement if it is the reduced watcher |
| `DedupWake.RequirementLost` | internal/idlewatcher/watcher.go:639-656 | an instance: the requirement of app is there before the reduction and is not kept |
| `DedupWake.ReduceListed` | internal/idlewatcher/watcher.go:639-667 | an instance on the heap: three watchers whose reduction loses the requirement |
| `WatchLoop.InvAlways` | internal/idlewatcher/watcher.go:564-637 | in every run, reloads included: ready implies running, no error and no start time; a start time implies running and not ready; an error is set exactly in the error status |
| `WatchLoop.ReadyIff` | internal/idlewatcher/watcher.go:564-637 | from any status and with reloads at any moment, also between any two reads of the state in a tick: ready if and only if the last report that the container runs was followed by checks that waited and one that passed in time, or a check passed that loaded what a reload had just stored, and nothing set the state afresh since |
| `WatchLoop.NotReadyUntilReported` | internal/idlewatcher/watcher.go:564-637 | a container that neither runs nor is ready is not ready before a start event, or a reload that finds it running, and a later healthy check |
| `WatchLoop.NotReadyUntilStarted` | internal/idlewatcher/watcher.go:564-637 | without a reload that finds it running that takes a start event |
| `WatchLoop.RunSays` | internal/idlewatcher/state.go:22-65 | for runs in which no reload falls into a tick: status, ready, starting, the start time, the number of unhealthy checks and which failure as statements about the inputs so far, the status it is found in being the first |
| `WatchLoop.EndIff` | internal/idlewatcher/state.go:22-65 | for all runs: the container is stopped, paused, or in error with this failure, if and only if the last input that set the state afresh says so: an event, a reload that found it so, a check that failed, or one that came too late |
| `WatchLoop.PausedIsPaused` | internal/idlewatcher/watcher.go:596-597 | an instance: a pause event leaves a running container paused |
| `WatchLoop.SurvivesIff` | internal/idlewatcher/health.go:104-167 | a tick and the reloads that fall into it are as if one came after the other if and only if there are none, or nothing is stored, or the last finds the container running and what is stored is what a check of that would store |
| `WatchLoop.SerialRun` | internal/idlewatcher/watcher.go:300 | every run is a run in which no reload falls into a tick, with lost reloads left out and a check right after a reload in place of a tick that loads it |
| `WatchLoop.ApartRun` | internal/idlewatcher/watcher.go:300 | a run in which no reload is lost is the run in which each stands alone |
| `WatchLoop.ShownMeans` | internal/idlewatcher/health.go:53-80 | the status shown is the state, in every run; the detail says "starting" exactly when ready and never "napping" |
| `WatchLoop.ReadyIsShownStarting` | internal/idlewatcher/health.go:53-80 | an instance: a ready container whose detail says "starting" |
| `WatchLoop.ReloadDuringCheck` | internal/idlewatcher/watcher.go:300 | an instance: a reload between the load and the store of a check is lost and a stopped container is taken for ready; before the check it is not |
| `WatchLoop.ReloadBeforeLoad` | internal/idlewatcher/watcher.go:605 | an instance: past the timeout a reload right before the load makes a stopped container ready, which no order of the two gives |
| `Notification.TokenIff` | internal/idlewatcher/state.go:22-82 | a token is pending after a run if and only if the container became ready in it while no waiter was blocked at the channel, or one was pending before, and no waiter came to the channel since |
| `Notification.WaitersKept` | internal/idlewatcher/state.go:67-82 | while the container does not become ready again the waiters are those before and those told no, less those that give up, and less one if a token was left for it |
| `Notification.AllReleasedIff` | internal/idlewatcher/state.go:22-82 | when the container becomes ready one waiter is released; when no one gives up and all have come to the channel, all are if and only if at most one was waiting or told no since, and otherwise all but one stay blocked |
| `Notification.StrandedUntilStart` | internal/idlewatcher/watcher.go:603-618 | no other is released before the next start event, whatever happens in between, since the checks have stopped |
| `Notification.TickingIff` | internal/idlewatcher/watcher.go:586-618 | a health tick can follow a run if and only if a start event was the last to touch the ticker, or nothing has stopped it; stops, pauses and checks that pass, fail or come too late stop it, and reloads do not touch it |
| `Notification.TickerFollows` | internal/idlewatcher/watcher.go:586-618 | what each input does to the ticker, by the state before and after |
| `Notification.ReadyIsUnticked` | internal/idlewatcher/watcher.go:603-618 | in every run the ticker is stopped while the container is ready |
| `Notification.ReloadedStaysUnready` | internal/idlewatcher/watcher.go:300 | so a ready container that is reloaded is not ready again before the next start event, also when it is found running |
| `Notification.SecondStaysBlocked` | internal/idlewatcher/state.go:22-82 | an instance: of two blocked waiters one stays blocked while the container is ready |
| `Notification.StaleTokenPending` | internal/idlewatcher/state.go:22-82 | an instance: a token for nobody outlives the stop after it, while the container starts again |
| `Notification.BlockedTakesToken` | internal/idlewatcher/state.go:69-82 | an instance: a blocked waiter takes it |
| `Notification.ReloadStopsChecks` | internal/idlewatcher/watcher.go:300 | an instance: after a reload that finds it running the container is not ready and its ticker is stopped |
| `IdleWatcher.Watcher.WatchUntilDestroy` | internal/idlewatcher/watcher.go:564-637 | the event loop leaves the state, the channel with its waiters, and the ticker as the run of its inputs up to a destroy event has them |
| `IdleWatcher.Watcher.CheckUpdateState` | internal/idlewatcher/health.go:104-167 | the state stored, who is notified, and what is reported, for every answer of the check and reloads before and after the load |
| `IdleWatcher.StaleToken` | internal/idlewatcher/state.go:69-82 | an instance: a waiter is answered while the container is only starting |
| `Dotted.JoinSplit` | internal/autocert/sni_matcher.go:36 | joining the labels of a name gives the name |
| `SniMatching.MatchAfter` | internal/autocert/provider.go:675-685 | after any registrations the match is that of a linear scan over the names in order |
| `SniMatching.SniMatcher.Match` | internal/autocert/sni_matcher.go:18-32 | the exact map and the tree together agree with the linear scan |
| `SniMatching.SniMatcher.MatchSuffixTree` | internal/autocert/sni_matcher.go:34-56 | the walk finds the wildcard at the name without its leftmost label, and no other |
| `SniMatching.SniMatcher.InsertWildcardSuffix` | internal/autocert/sni_matcher.go:109-129 | only the path of the suffix gets the provider, and only when it had none |
| `SniMatching.SniMatcher.AddName` | internal/autocert/sni_matcher.go:74-87 | a registered name is added to what the tree and the map stand for |
| `SniMatching.SniMatcher.AddProvider` | internal/autocert/sni_matcher.go:64-95 | a provider adds its common name and its alternative names, or nothing without a certificate |
| `SniMatching.FirstExactIsFirst` | internal/autocert/sni_matcher.go:104-106 | the exact match of the linear scan is the first in registration order |
| `SniMatching.FirstWildcardByPath` | internal/autocert/sni_matcher.go:34-56 | the first wildcard over a name is the first whose suffix is the name without its leftmost label |
| `SniMatching.OneLabelBeforeIsTail` | internal/autocert/sni_matcher.go:46-53 | a wildcard stands for exactly one label |
| `SniLaws.MatchIs` | internal/autocert/sni_matcher.go:18-56 | on the names as strings: the first provider that registered the name, or else the first that registered a wildcard one label above it, or else nothing |
| `SniLaws.NormalizeIgnores` | internal/autocert/sni_matcher.go:58-62 | blanks around a name, upper case and one dot at its end make no difference |
| `SniLaws.NormalizeClean` | internal/autocert/sni_matcher.go:58-62 | a name without blanks, upper case and a last dot is compared as it is |
| `SniLaws.EntriesAre` | internal/autocert/sni_matcher.go:74-95 | the common name is registered before the alternative names, if there is one |
| `Renewal.InvAlways` | internal/autocert/provider.go:403-517 | what every reachable state of the handshake keeps |
| `Renewal.ClosedAtMostOnce` | internal/autocert/provider.go:469-474 | in every interleaving each done channel is closed at most once |
| `Renewal.NoWaiterStranded` | internal/autocert/provider.go:403-443 | a stored channel means a pending token, a running renewal, or a caller about to send; a waiter's channel is closed or pending |
| `Renewal.DistanceFalls` | internal/autocert/provider.go:503-517 | no step takes a channel further from being closed, and helping steps bring it closer |
| `Renewal.HelpIsEnabled` | internal/autocert/provider.go:503-517 | until it is closed a helping step other than the timer is enabled |
| `Renewal.SixHelpsClose` | internal/autocert/provider.go:403-517 | six helping steps close a channel, whatever happens in between |
| `Renewal.AnswerAndRenewal` | internal/autocert/provider.go:403-423 | in every run a caller that stored its channel has a renewal coming whatever its answer: the token is there until it is taken, and the channel is closed or pending; the answer tells only whether the token was free |
| `RenewalAnswers.WaiterTold` | internal/autocert/provider.go:425-443 | in every run a waiter that was told true had found a channel, which had been closed once by then; one that was told false found none or gave up |
| `RenewalAnswers.CallerTold` | internal/autocert/provider.go:403-423 | in every run a caller is told true if and only if the slot was free at its turn and no token was there when it asked |
| `RenewalAnswers.WaitsOnLoaded` | internal/autocert/provider.go:427-430 | a waiter waits on the channel that it found in the slot |
| `Renewal.FalseIsNotDropped` | internal/autocert/provider.go:400-423 | an instance: a caller was told false and its renewal is still to come |
| `Renewal.ForcedIff` | internal/autocert/provider.go:469-517 | in every run the renewal that closes a stored channel is forced, after it was stored, if and only if none was running then and the first to start after is forced |
| `Renewal.ClosedBeforeForcedRenewal` | internal/autocert/provider.go:469-517 | an instance: a done channel is closed and the forced renewal has not begun |
| `Crc32.UpdateByTable` | agent/pkg/agent/stream/header.go:101-109 | the bitwise update is the table form of section 8 of RFC 1952 |
| `Crc32.ShiftInjective` | agent/pkg/agent/stream/header.go:101-109 | the shift step loses nothing |
| `Crc32.FourBytesInjective` | agent/pkg/agent/stream/header.go:101-109 | from one register four bytes are told apart by where they lead |
| `Crc32.CrcTailInjective` | agent/pkg/agent/stream/header.go:101-109 | a common tail keeps different registers different |
| `Crc32.BurstChangesChecksum` | agent/pkg/agent/stream/header.go:101-109 | messages that differ only within four consecutive bytes have different checksums |
| `Crc32.KnownChecksums` | agent/pkg/agent/stream/header.go:101-109 | the checksums of no byte and of the letter "a" are those of RFC 1952 |
| `StreamHeader.RoundTrip` | agent/pkg/agent/stream/header.go:50-95 | a header made for a host and a port validates and gives both back, with its flag |
| `StreamHeader.Layout` | agent/pkg/agent/stream/header.go:11-48 | where everything is, in numbers: 275 bytes, with the version, each length and each text padded with zeros, the flag and the checksum of the 271 before it |
| `StreamHeader.BigEndian` | agent/pkg/agent/stream/header.go:101-104 | a checksum is written with its highest byte first |
| `StreamHeader.BurstRejected` | agent/pkg/agent/stream/header.go:84-113 | damage within four consecutive covered bytes, the checksum field intact, is always rejected |
| `StreamHeader.SendReceive` | agent/pkg/agent/stream/header.go:50-95 | building, copying, validating and reading gives back whatever fits, and the stream stays open |
| `StreamHeader.SendHealthCheck` | agent/pkg/agent/stream/header.go:67-113 | the receiver of a health check accepts it and closes at once |
| `StreamHeader.NewStreamRequestHeader` | agent/pkg/agent/stream/header.go:50-65 | too long a host, then too long a port, is refused; otherwise the bytes are those of the layout with its checksum |
| `StreamHeader.NewStreamHealthCheckHeader` | agent/pkg/agent/stream/header.go:67-73 | an empty target and the flag to close, with the checksum over it |
| `StreamHeader.ToHeader` | agent/pkg/agent/stream/header.go:75-78 | a copy, byte for byte |
| `StreamHeader.StreamRequestHeader.UpdateChecksum` | agent/pkg/agent/stream/header.go:101-104 | the checksum field alone changes, to the big-endian checksum of the rest |
| `StreamHeader.StreamRequestHeader.ValidateHeader` | agent/pkg/agent/stream/header.go:84-109 | the verdict is that on the bytes: version, lengths, checksum |
| `StreamHeader.StreamRequestHeader.GetHostPort` | agent/pkg/agent/stream/header.go:80-82 | host and port are read at their places |
| `StreamHeader.StreamRequestHeader.WireParts` | agent/pkg/agent/stream/header.go:30-42 | where each field lies in the flat layout |
| `Labels.ParseExpanded` | internal/docker/label.go:32-67 | in any order: the result holds every label's value at its path, and nothing else, if and only if no path is above another; then the only error is that of a label without a path |
| `Labels.StepHolds` | internal/docker/label.go:33-64 | one label more puts one value more in place |
| `Labels.ParseHolds` | internal/docker/label.go:32-67 | whatever the order, labels of which no path is above another are held after any number of them |
| `Labels.InsertLookup` | internal/docker/label.go:44-63 | inserting at a free path changes that path only |
| `Labels.InsertClear` | internal/docker/label.go:44-63 | with no value above that is not empty, a value gets to its path without an error and no other value comes to be |
| `Labels.MisfitHasRival` | internal/docker/label.go:52-62 | what is in the way of a path is a value above or below it |
| `Labels.HeldIsPrefixFree` | internal/docker/label.go:26-68 | a nested map that holds every label exists only when no path is above another |
| `Labels.NoValueAboveValue` | internal/docker/label.go:26-68 | no nested map holds values at a path and at a longer one |
| `Labels.SameLookups` | internal/docker/label.go:26-68 | a nested map without empty submaps is determined by its values |
| `Labels.OrderMattersIff` | internal/docker/label.go:32-67 | all orders of the labels give one nested map and one number of errors if and only if no path is above another |
| `Labels.DeepestFirst` | internal/docker/label.go:44-63 | for any labels there is an order in which no value is in the way of another |
| `Labels.OrderMatters` | internal/docker/label.go:32-67 | an instance: two labels whose two orders give different maps and errors |
| `Labels.FlattenMap` | internal/docker/label.go:169-192 | flattening writes every leaf at its dotted key and nothing else, in any order |
| `Labels.KeyInjective` | internal/docker/label.go:169-175 | different paths of dot-free keys have different dotted keys |
| `Labels.FlattenAndParse` | internal/docker/label.go:26-192 | flattening a nested map of strings and parsing it gives the map back without an error |
| `Wildcard.ExpandWildcard` | internal/docker/label.go:70-150 | in any order, for any labels and aliases: every alias gets every wildcard value, explicit labels that are not overridden land under their number, the others stay, nothing else is there; when no alias is repeated they are numbered without gap or repetition and all these explicit labels survive; it crashes if and only if a label with a suffix has an empty alias or, when there are aliases and wildcards, any label has one or more than a hundred aliases are given or known |
| `Wildcard.CollectWildcards` | internal/docker/label.go:70-115 | the first pass collects the wildcards, removes them and numbers the aliases; it crashes if and only if some label has an empty alias |
| `Wildcard.FirstPassStep` | internal/docker/label.go:78-115 | one label more keeps all that the first pass guarantees |
| `Wildcard.CollectedUnique` | internal/docker/label.go:94-103 | wildcards that do not conflict give the same suffixes in every order |
| `Wildcard.InitialNumbers` | internal/docker/label.go:70-74 | each alias that is given has the number of its last place |
| `Wildcard.DiscoverNumbers` | internal/docker/label.go:105-115 | a discovered alias gets the next number behind those there are |
| `Wildcard.NumbersIff` | internal/docker/label.go:70-115 | the numbers are without gap or repetition, also after discoveries, if and only if no given alias is repeated; then they are the places |
| `Wildcard.CollidesIff` | internal/docker/label.go:70-115 | two aliases share a number if and only if the last place of a given one is among the numbers of discovered ones |
| `Wildcard.BeyondIff` | internal/docker/label.go:137-149 | a number is beyond the hundred references if and only if more than a hundred aliases are given, repetitions included, or known |
| `Wildcard.RepeatedAliasCollides` | internal/docker/label.go:70-115 | an instance: with a repeated alias a discovered one gets its number |
| `Wildcard.MoveExplicit` | internal/docker/label.go:117-142 | the second pass moves explicit labels to their number, each once, in any order |
| `Wildcard.TargetInjective` | internal/docker/label.go:137-141 | no two explicit labels move to the same place |
| `Wildcard.SurviveIff` | internal/docker/label.go:117-142 | all explicit labels that move keep their values if and only if those that move to one place agree, as they do when no number is shared |
| `Wildcard.WildcardWins` | internal/docker/label.go:117-149 | an explicit label whose suffix a wildcard has gets the wildcard value |
| `Wildcard.ExplicitIsReplaced` | internal/docker/label.go:117-149 | an instance: an own and a wildcard value for one suffix |
| `Wildcard.SpreadAll` | internal/docker/label.go:144-149 | the third pass writes every wildcard under every alias and leaves the rest |
| `Wildcard.KeysIff` | internal/docker/label.go:70-150 | a label is there after the expansion if and only if a label before it goes there or a wildcard value does |
| `Wildcard.NoneLeft` | internal/docker/label.go:70-150 | no wildcard and no explicit label of a known alias is left |
| `Wildcard.LabelOfShape` | internal/docker/label.go:79-92 | a label is its alias and its suffix, and can be put together again |
| `WildcardText.GivesIff` | internal/docker/label.go:78-103 | what a label adds to the wildcards, on its text: a document gives what it holds where "proxy.*" stands alone, with an empty suffix, or over more than two lines, and any other wildcard gives its suffix the value |
| `WildcardText.WildcardsSpread` | internal/docker/label.go:144-149 | if the wildcards do not conflict every alias holds, under its reference, all that every wildcard label gives; and whatever stands there comes from one, from a label of its alias, or was there before |
| `WildcardText.KnownIff` | internal/docker/label.go:70-115 | on the texts: an alias is known if it is given or if a label of its own names it |
| `WildcardText.OwnMoves` | internal/docker/label.go:117-142 | a label of an alias goes to its reference with its value, unless a wildcard gives the suffix or another goes there, and is no longer where it was |
| `WildcardText.OtherStays` | internal/docker/label.go:117-150 | every other label stays, where no wildcard and no moved label goes |
| `WildcardText.MustCrashIff` | internal/docker/label.go:70-149 | the expansion goes out of range if and only if an alias is empty where a suffix is looked at, or there are more than a hundred |
| `WildcardText.DocumentInstance` | internal/docker/label.go:94-149 | an instance: the document of `proxy.*` stands under the reference of the one alias |
| `LabelParsing.ParseLabels` | internal/docker/label.go:26-68 | expanding and parsing holds the expanded labels if and only if no path is above another, and then every wildcard value is readable below every alias; with the condition on the labels before, and the same condition for a crash |
| `LabelParsing.TidyIff` | internal/docker/label.go:26-150 | for any labels and aliases: no path is above another after the expansion if and only if, before it, no suffix is above another under the name that both come to, and no label without a suffix has such a name |
| `LabelParsing.PrefixFreeIff` | internal/docker/label.go:26-150 | when every label is a wildcard or names an alias with a suffix, and no number is shared: no path is above another after the expansion if and only if, before it, no alias is given a suffix above another by its own labels and the wildcards |
| `LabelParsing.PathOfLabelFor` | internal/docker/label.go:34-41 | where a label under a reference lands in the nested map |
| `Decimal.ItoaInjective` | internal/docker/label.go:18-24 | different numbers have different references |
| `Health.Monitor.CheckUpdateHealth` | internal/health/monitor/monitor.go:220-260 | the state and the notices after a check, for every threshold |
| `Health.Monitor.Watch` | internal/health/monitor/monitor.go:82-135 | the loop sends the notices of its history and stops itself exactly after five checks in a row that could not be made |
| `Health.DownsAreLongRuns` | internal/health/monitor/monitor.go:236-257 | over every history the downs are as many as the maximal failure runs of length at least max(1, Retries) |
| `Health.UpsAreEndedRuns` | internal/health/monitor/monitor.go:236-257 | the ups are as many as the failure runs that have ended |
| `Health.DownsAreSeparated` | internal/health/monitor/monitor.go:236-257 | between two downs there is an up |
| `Health.StatusIsLast` | internal/health/monitor/monitor.go:220-260 | after any history the status is that of the last check |
| `Health.NoticesOfOneMore` | internal/health/monitor/monitor.go:236-257 | one check more sends "up" if it is good after a failure, and "down" if it is the failure in a row that makes them as many as wanted |
| `Health.FiveInARow` | internal/health/monitor/monitor.go:108-130 | what stops the watch, in numbers: five checks in a row that failed to be made |
| `Acl.Config.IPAllowed` | internal/acl/config.go:270-307 | the answer is the uncached decision whatever the caches hold and however old they are, and is logged once unless there is no address or it is loopback |
| `Acl.DecisionIff` | internal/acl/config.go:270-307 | loopback is allowed, and private addresses if so configured; any other if and only if no deny rule matches and it is the default or an allow rule matches |
| `Acl.MatchesIff` | internal/acl/matcher.go:97-127 | what each kind of rule asks: the address, its network, and the zone and the country of its city, which is known only with a database |
| `Acl.DenyComesFirst` | internal/acl/config.go:293-302 | an instance: an address on both lists is denied |
| `Acl.Config.Answer` | internal/acl/config.go:270-307 | so is every answer in every history of calls |
| `Acl.Config.CacheRecord` | internal/acl/config.go:173-182 | a record keeps the decision and only cities of the database |
| `Acl.Config.GetCachedCity` | internal/acl/config.go:196-207 | a place named in a summary is the database's; with forced resolution it is named for every cached address that has one |
| `Acl.Config.Match` | internal/acl/matcher.go:76-83 | a list matches if and only if one of its matchers does, through the city cache |
| `Acl.CityCache.LookupCity` | internal/maxmind/city_cache.go:9-36 | the city is the database's, cached or not, and the cache keeps only such cities |
| `Ring.Entries.AddAll` | internal/metrics/period/entries.go:28-44 | after any samples the ring has those an interval after the last accepted one |
| `Ring.Entries.AddWithTime` | internal/metrics/period/entries.go:37-44 | a sample is added behind the others, over the oldest when full |
| `Ring.Entries.Get` | internal/metrics/period/entries.go:58-70 | the last min(100, n) samples in the order they were added |
| `Ring.Entries.Unmarshal` | internal/metrics/period/entries.go:84-110 | the first hundred written samples come behind what the ring has, with the interval and the time of the last; nothing changes without samples |
| `Ring.RoundTrip` | internal/metrics/period/entries.go:77-110 | a ring written and read again gives the same samples |
| `Ring.HoldsLast` | internal/metrics/period/entries.go:58-70 | the two pieces of the array, put together, are the last samples |
| `Ring.AcceptedMore` | internal/metrics/period/entries.go:28-33 | one sample more is accepted exactly when an interval has passed since the last accepted one |
| `Ring.AcceptedApart` | internal/metrics/period/entries.go:28-33 | accepted samples are at least an interval apart |
| `Ring.IntervalIs` | internal/metrics/period/entries.go:17-26 | the interval is a hundredth of the duration, rounded down, and at least a second |

## Left out

- Network, TLS, Docker, Proxmox, ACME, HTTP and websocket calls: their results are inputs of steps.
- Time-of-line parsing: a function from a line to an optional time. Rotation by size, which is one copy, and buffer sizes.
- Rotation needs a newline-terminated file without blank lines, as the logger writes it
  (internal/logging/accesslog/file_access_logger.go:119-121); other files are outside the position arithmetic.
- Buffer pools, and reads that return a full buffer together with an end of file.
- The retention count is an unbounded number; the conversion of a 64-bit unsigned count to `int` is not modelled.
- `RuleParser.Parse`: does not model trimming when the last leading space takes several bytes, of which the program leaves all but the first.
- Target tables, argument validation, glob and regular-expression matching: arbitrary functions of subject and arguments.
- `Vars.ExpandVars`: text that is not taken for a template is written as it is and is not modelled; getters answer from arbitrary maps.
- A panic of the upstream itself, and an upstream that never returns.
- The response modifier, error texts and the flush at the end of a request.
- `Dependencies.Collect`: needs an acyclic graph, given by a level on each watcher; the ordered map, which is another repository's, is taken to keep insertion order and to replace the value of a key it has.
- `Wake.DependenciesFirst`: a dependency that is seen starting counts as woken, as in the program; it may fail to start later.
- `WakeHealth.AlwaysHealthyIff`: needs a graph without cycles, as `Dependencies.Collect`.
- `WatchLoop.InvAlways`: holds up to the exit of the loop; the goroutine that ends a watcher marks it ready and closes the channel, which releases all waiters.
- `IdleWatcher.Watcher.WatchUntilDestroy`: idle ticks change no stored state; the stop call they make, the idle ticker and wake events are not modelled.
- `Pipes.OpenParenthesisIff`: says nothing where an exposed text opens or escapes something itself; `Pipes.SplitsRightIff` is for all lines.
- `SniMatching.SniMatcher.Match`: lower-casing is ASCII; a nil matcher and a certificate that does not parse are the case without names.
- `Renewal.InvAlways`: one provider with a live scheduler; the recursion over extra providers and shutdown with a pending token are not modelled.
- The header's pointer casts: the class holds the fields and its meaning is the flat byte sequence. `GetHostPort` is for lengths that fit, as after validation.
- `Labels.ParseExpanded`: nested maps are values, so that sharing of submaps is not captured; which maps the orders of a set with a path above another give is left open beyond `Labels.OrderMattersIff`.
- `Labels.FlattenMap`: leaves are strings; formatting of other scalars, maps with non-string keys and the YAML parser are not modelled (the parser is an arbitrary function).
- `Wildcard.ExpandWildcard`: the values collected from conflicting wildcards depend on the order, and the contract then leaves them open.
- `Health.Monitor.CheckUpdateHealth`: the failure counter is unbounded, not 64 bits; latency, details and notification texts are not modelled.
- `Acl.Config.IPAllowed`: calls follow one another; an address is identified with its canonical text, and a record keeps the address information as a value.
- Notification counters of access control and the ticker of its summaries.
- `Ring.Entries.Unmarshal`: the wire format itself is a sequence of samples and an interval.
- Environment substitution in readers, homepage sorting, pagination, port and scheme tables, uptime and back-off arithmetic.
