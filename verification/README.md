# NSH, PCM fast forward, Modbus and friends: a verified model

This project models the parts of NuttX and its applications in which a simple meaning is reached
through mutable state, bounded stacks, buffers changed in place or partial input and output, and
proves that the meaning is reached. `dafny verify dfyconfig.toml` checks everything.

| file | models |
|---|---|
| `nsh_machine.dfy` | the two-stack control machine of the shell: `nsh_loop`, `nsh_itef`, `nsh_saveresult`, `cmd_break`, `nsh_parse_command`, and the script loop as a step function |
| `nsh_parts.dfy` | commands such as `do x` and `then x` cut into two, for every script, and the words that cannot be cut off |
| `nsh_structured.dfy` | scripts as trees, and what NSH makes of a tree |
| `nsh_levels.dfy` | what becomes of the if stack: code that is skipped, and `break` inside an `if` |
| `nsh_simulation.dfy` | the proof that the flat machine does with a tree exactly what NSH makes of it |
| `nsh_theorem.dfy` | the meaning of a tree by section 2.9.4 (Compound Commands) of the POSIX Shell Command Language, and the main theorem |
| `nsh_quiet.dfy` | faithful scripts have no word rejected, also where they run for ever |
| `nsh_paths.dfy`, `nsh_scripts.dfy` | the exact condition under which a script keeps its meaning in every world, and the scripts at its edge |
| `nsh_text.dfy`, `nsh_file.dfy` | `nsh_script` on the bytes of a file, and the proof that it runs the file's commands as the machine does |
| `nsh_print.dfy`, `nsh_printed.dfy` | scripts written out as text, and the text read back: from a tree to the bytes of a file and to what the tree means |
| `nsh_parser.dfy` | the parser object of `nsh_parse.c`, with its arrays, proved against the functions of the machine |
| `nsh_lexer.dfy`, `nsh_lexer_laws.dfy` | splitting, tokenising, expanding and dequoting as functions on strings, and their laws |
| `nsh_line.dfy` | where a line is cut into commands, character by character |
| `nsh_linebuf.dfy`, `cstrings.dfy` | the same as `nsh_parse.c` does it: on NUL-terminated strings in one buffer, cut and shifted in place |
| `pcm.dfy`, `wav_header.dfy`, `pcm_decoder.dfy` | PCM fast forward: what is kept of a stream, the header of a WAV file, and the decoder object that compacts buffers in place |
| `modbus_table.dfy`, `modbus_slave.dfy`, `modbus_master.dfy` | the Modbus handler table and the two event-driven stacks |
| `basics.dfy` | options, bytes, minimum |
| `dd.dfy`, `hexdump.dfy`, `exepath.dfy`, `copyargv.dfy` | the transfer loop of `dd`, the window of `hexdump`, the walk over `PATH`, and the copy of an argument list |

## How the shell theorem is put together

A world is a function: given every command run so far and the status of the last one, it says
whether the current command fails. So two runs agree when they run the same commands in the same
order, end with the same status and return value, and print the same number of messages about words
that are out of place.

`NshMachine.Step` is the machine: one command of the script per step, with the stacks, the enable
bits and the jump back that `done` asks for. `NshParts` cuts `do x` and `then x` in two and shows
that every script runs alike either way, so the documented `while c; do x; done` is covered.
`NshStructured.Eval` says what NSH makes of a tree, with `break` anywhere: it carries the if stack,
because a `break` inside an `if` of a loop body pops it. `NshTheorem.Meaning` is the shell language,
in which a loop in a skipped body is skipped and `break` leaves a loop from wherever it stands.

`MachineIsEval` equates the first two, in both directions, for every well-formed script that fits on
the stacks. `ScriptMeansItsTree` adds the third for faithful scripts, and `FaithfulRejectsNothing`
says that such a script has no word rejected even where it runs for ever. `KeepsMeaningIff` shows, of
scripts run with errors that stop them and of scripts run with errors that are ignored, that the
faithful ones are the only ones that keep their meaning, one family of scripts set aside.
`FileIsMachine` and `FileMeansItsTree` carry this from the numbers of commands to the bytes of a
file: lines are read by `fgets`, split and cut into tokens, and `done` seeks to the byte recorded for
the loop. `NshPrinted.TextMeansItsTree` closes the circle: a tree in plain words, written out with the
reserved words as they are spelled, is read back from its text as that tree and does what it means.

Imperative code is modelled by classes and loops. Each method is proved against the function that
the lemmas are about (`NshParser.Parser.Loop` against `NshMachine.ParseLoop`, and so on).

## Where the code does not do what its comments or its purpose suggest

The model follows the code. Each of these is proved, and where a property fails the condition under
which it holds is given as an if-and-only-if; for loops on one line where errors are ignored, only a
sufficient layout is given.

* A loop that stands directly in the body of another loop has its condition run on the pass that
  should skip the body, because only state DO is looked at when a loop decides whether it is
  enabled and the result of the condition then overwrites the enable bit
  (`NshTheorem.SkippingIsSilentIff`).
* A `break` inside an `if` of a loop body closes that `if`, and the `else` or `fi` that follows meets
  another one. Outside every `if` it meets none and is rejected: `while a; do; if b; then; break; fi;
  done` runs `a` and `b` and fails at the `fi` (`NshScripts.BreakInsideIfFails`). Inside an `if` it
  closes that one, and where errors are ignored the script `if x; then; while a; do; if b; then;
  break; fi; done; else; c; fi` runs both branches (`NshScripts.RunsBothBranches`).
* A script keeps its meaning in every world, messages about rejected words counted, if and only if
  neither can happen: no loop that can be reached has a bare loop in its body and no `break` that can
  be reached stands inside an `if` of a loop body (`NshPaths.KeepsMeaningIff`, for errors that stop
  the script and for errors that are ignored). Set aside are scripts in which a loop that stands in an
  `if` has another loop in its body with such a `break`: there the `break` of the outer loop can put
  the if stack right again (`NshScripts.MendedKeepsMeaning`). Were the messages not counted, the
  condition would be too strong where errors are ignored (`NshScripts.OnlyTheMessageTells`).
* `then while c`, `else if c`, `do until c` and the like do not open anything: the reserved word is
  run as an ordinary command. `do`, `then` or `else` with something behind it is that word and then
  the rest if and only if, after `do`, the rest does not begin with a loop word and, after `then` and
  `else`, with a loop word or an if word (`NshParts.SplitsIff`, `NshParts.LostIsRun`). So `do if c`
  works and `then if c` does not.
* The documentation says that loops work from the command line. They need a script
  (`NshMachine.LoopOpensIff`).
* Where errors are ignored, a command that fails gives up the rest of its line, `done` and `fi`
  included: a loop on one line whose body fails is never closed
  (`NshScripts.OneLineLoopStaysOpen`).
* The offset recorded for a command is where it begins if and only if the command holds no quotation
  mark (`NshLexerLaws.LoffsIsStartIffUnquoted`), and a jump back finds the loop again if and only if
  its head holds none (`NshLexerLaws.ResumeAtLoopTopIff`).
* Backslashes in the value of a variable are removed by expansion, so `${name}` gives the value if
  and only if it has none (`NshLexerLaws.ReferenceKeepsValueIff`), and so it is with the output of a
  command in back-quotes (`NshLexerLaws.OutputIsKeptIff`). Text with references to some variables and
  commands always expands as it is meant if and only if none of their values has one
  (`NshLexerLaws.TemplatesKeepValuesIff`).
* A loop word that is rejected where the condition of an `if` is due is taken for a condition that
  fails, and the line goes on (`NshMachine.RejectedLoopWord`).
* The skip count of the PCM decoder is 8 bits wide. The decoder keeps to its rate if and only if
  the bytes between two samples fit (`PcmStream.KeepsRateIff`), and a wrapped count tears no sample
  if and only if it is a whole number of samples (`PcmStream.NeverTearsIff`).
* A return to normal speed forgets what is still to be skipped. No sample is torn if and only if that
  is a whole number of samples whenever something is put out (`PcmStream.RateChangesTearIff`); a
  return within a sample tears it (`PcmStream.ReturnTearsSample`).
* The decoder does not check the sample size of a header. Its loop ends if and only if that is not 0
  or nothing is left to be copied (`PcmDecoder.LoopEndsIff`).
* The phase of fast forward is not reset at the end of a file. A file played at one rate leaves none
  if and only if it is a whole number of periods long (`PcmStream.LeavesNoPhaseIff`).
* `pcm_parsewav` returns an error number from a function of type bool, so a sample format it rejects
  counts as valid. What is accepted is what is supported if and only if the header is not one of a
  WAV file or its format is supported (`WavHeader.AcceptsSupportedIff`); a 24-bit header is accepted
  (`WavHeader.AcceptsMono24`).
* Removing a Modbus function leaves a gap at which the scan stops: what is behind it can no longer
  be reached (`ModbusTable.RemovalKeepsIff`).
* A Modbus broadcast reports the exception of the last slave only, and leaves the destination
  address at that slave (`ModbusMaster.BroadcastReachesAll`).

## Model

| member | source | states |
|---|---|---|
| NshMachine.SaveResult | apps/nshlib/nsh_parse.c:425-482 | whichever stack is waiting, taking a result keeps the depth of the stacks and the invariant between commands |
| NshMachine.ParseLoop | apps/nshlib/nsh_parse.c:1764-1947 | on any tokens the loop stack stays in bounds and well formed, and the "Shouldn't happen" branch of `done` is not reached |
| NshMachine.ParseItef | apps/nshlib/nsh_parse.c:1955-2109 | on any tokens the if stack stays in bounds and well formed, and the "Shouldn't happen" branch of `fi` is not reached |
| NshMachine.CmdBreak | apps/nshlib/nsh_parse.c:2596-2619 | popping the if stack to where the loop began keeps both stacks in bounds and well formed |
| NshMachine.ParseCommand | apps/nshlib/nsh_parse.c:2295-2463 | one command, whatever it is and wherever it stops, `break` with arguments that it does not take included, keeps the stacks well formed |
| NshMachine.StacksStayWellFormed | apps/nshlib/nsh_parse.c:1811-1921 | over every sequence of commands, ill-formed ones and `break` included, indices stay below the depth, level 0 of each stack stays NORMAL, every loop between level 0 and the top is in state DO, and no later command can reach either "Shouldn't happen" branch |
| NshMachine.SuppressedIfIsSilent | apps/nshlib/nsh_parse.c:1714-1756 | from an `if` entered while commands are suppressed up to and including its `fi`, no command and no loop or if condition runs and the last status stays, whatever error-free commands lie between |
| NshMachine.DisabledIfOpensSilence | apps/nshlib/nsh_parse.c:2012-2017 | an `if` met while commands are disabled, by an `if` or by a skipped loop body, opens such a silent level without running its condition |
| NshMachine.LoopOpensIff | apps/nshlib/nsh_parse.c:1783-1837 | `while` or `until` opens a loop if and only if a script is being read, no other condition is awaited, there is room on the stack and a condition follows; on the command line never |
| NshMachine.LoopRejectsIff | apps/nshlib/nsh_parse.c:1764-1947 | a command is rejected exactly if it is a loop word out of place, too deep or without its condition, or stands where `do` is due; then no loop is open, no jump is asked for, one message is printed and the if stack is as it was |
| NshMachine.IfRejectsIff | apps/nshlib/nsh_parse.c:1955-2109 | a command is rejected exactly if it is an if word out of place, too deep or without its condition, or stands where `then` is due; then no `if` is open, one message is printed and the loops are as they were |
| NshMachine.RejectedLoopWord | apps/nshlib/nsh_parse.c:2325-2332 | such a command runs nothing, fails and leaves no loop open and no jump asked for; it does not fail only where the condition of an `if` is due, and is then taken for a condition that does |
| NshParts.CommandByParts | apps/nshlib/nsh_parse.c:2325-2346 | one command, whatever it is and from every state, is one or two parts: its first word `do`, `then` or `else` and what stands behind it |
| NshParts.PartsMachineIsMachine | apps/nshlib/nsh_script.c:107-147 | over every script, from every state, the machine halts in a configuration if and only if the machine on parts does |
| NshParts.LostIsRun | apps/nshlib/nsh_parse.c:1841-1858 | in every state that accepts the word before it, then enables commands and awaits no if condition, a loop word after `do`, and a loop or if word after `then` and `else`, is run as an ordinary command with all that follows it |
| NshParts.SplitsIff | apps/nshlib/README.txt:100-134 | such a command has the effect of its word and then of the rest, in every state that accepts the word, if and only if the rest does not begin with a lost word |
| NshSimulation.Simulate | apps/nshlib/nsh_parse.c:2295-2463 | for every tree, `break` anywhere, if NSH's semantics of it ends, the machine started at its first part reaches the same commands, status and end, jumps and rejected words included, with the loop stack as before but for the enable bit of the loop being run |
| NshSimulation.Terminates | apps/nshlib/nsh_script.c:107-147 | if the machine halts, NSH's semantics of the tree ends: the machine runs for ever only if the tree does |
| NshLevels.DeadCode | apps/nshlib/nsh_parse.c:1714-1738 | any suppressed tree, with loops, ifs and `break` anywhere in it, runs nothing, has no word rejected and leaves the if stack, the status and the loop as they were |
| NshLevels.StaysLevel | apps/nshlib/nsh_parse.c:2596-2619 | a tree without a `break` inside an `if` of a loop body leaves the if stack as it was and has no word rejected, on every run |
| NshLevels.NeverRises | apps/nshlib/nsh_parse.c:2596-2619 | a run that ends and has no word rejected never has a higher if stack than before, so a level lost to a `break` stays lost, whether errors stop the script or are ignored |
| NshTheorem.SkippingIsSilentIff | apps/nshlib/nsh_parse.c:1687-1704 | skipping a loop body runs no command if and only if no loop stands in it outside every `if` |
| NshTheorem.EvalIsMeaning | apps/nshlib/nsh_parse.c:1764-1947 | in every faithful tree NSH's semantics is the structured meaning, `break` and stopping on failure included, pass for pass, and the if stack is left as it was |
| NshTheorem.MachineIsEval | apps/nshlib/nsh_script.c:107-147 | for every well-formed script that fits on the stacks, `do x` and `then x` and `break` anywhere included, and every world, the flat machine halts with a result if and only if NSH's semantics of the tree gives it |
| NshTheorem.ScriptLeavesStacks | apps/nshlib/nsh_script.c:107-147 | a faithful script that comes to its end leaves both stacks as it found them |
| NshTheorem.ScriptMeansItsTree | apps/nshlib/nsh_script.c:107-147 | main theorem: for every faithful script and every world, the two-stack machine with jumps runs the same commands with the same final status and return value as the structured meaning, and diverges exactly when it does |
| NshQuiet.Endless | apps/nshlib/nsh_script.c:107-147 | a faithful part of a script that runs for ever has no word rejected at any time |
| NshQuiet.FaithfulRejectsNothing | apps/nshlib/nsh_script.c:107-147 | a faithful script, whether it ends or not and in every world, never has a word rejected |
| NshPaths.Tracks | apps/nshlib/nsh_parse.c:2596-2619 | a run of NSH that has no word rejected and ends with the if stack as high as it was has run no `break` inside an `if` of a loop body, and its commands are those of the path of its answers |
| NshPaths.LeaveOut | apps/nshlib/nsh_parse.c:1687-1704 | any finite run of NSH, with the answers to what it runs in skipped bodies left out, is a run of the structured meaning, and it is shorter if and only if it passes over a bare loop |
| NshPaths.CanHit | apps/nshlib/nsh_parse.c:1687-1704 | every script that is not faithful can be led by the results of its commands to pass over a bare loop or to run a `break` inside an `if` of a loop body |
| NshPaths.UnfaithfulDiffers | apps/nshlib/nsh_script.c:107-147 | every unfaithful script, but for the family set aside, has a world, with errors that stop it as well as with errors that are ignored, in which the machine and the meaning give different results, messages counted |
| NshPaths.KeepsMeaningIff | apps/nshlib/nsh_script.c:107-147 | for either treatment of errors, the machine gives what a script means in every world and layout, messages about rejected words counted, if and only if the script is faithful: no reachable loop has a bare loop in its body and no reachable `break` stands inside an `if` of a loop body; if it is, no word is rejected even on endless runs |
| NshScripts.BreakInsideIfFails | apps/nshlib/nsh_parse.c:2596-2619 | from any state at rest, `while a; do; if b; then; break; fi; done` with both commands succeeding means to succeed; the machine runs both, rejects the `fi`, and ends in an error or, where errors are ignored, with a failed status |
| NshScripts.RunsBothBranches | apps/nshlib/nsh_parse.c:2596-2619 | from any state at rest and with errors ignored, `if x; then; while a; do; if b; then; break; fi; done; else; c; fi` with every command succeeding means to run the then branch only; the machine runs both branches and rejects two words |
| NshScripts.MendedKeepsMeaning | apps/nshlib/nsh_parse.c:2596-2619 | a script that is not faithful, with a `break` inside an `if` that a run can reach, and that keeps its meaning in every world, because the `break` of a loop around it restores the if stack |
| NshScripts.OnlyTheMessageTells | apps/nshlib/nsh_script.c:107-147 | where errors are ignored, a script that is not faithful and yet does in every world what it means, but for the message about a rejected `fi` |
| NshScripts.OneLineLoopStaysOpen | apps/nshlib/nsh_parse.c:2541-2558 | where errors are ignored, the documented loop on one line, with a body that fails, runs its condition and its body once and the script ends with the loop still open |
| NshText.TokensAreExpansions | apps/nshlib/nsh_parse.c:1425-1680 | where the tokens of a command begin and end does not depend on the variables, the last status and the outputs of commands: its arguments are the expansions of the same pieces of text in every shell |
| NshText.SameWords | apps/nshlib/nsh_parse.c:2325-2346 | the words that decide how a command is parsed, if they hold no reference, are the same in every shell, whatever references its arguments hold |
| NshText.ReadsOneLine | apps/nshlib/nsh_script.c:121-143 | a read gives what comes next up to and including the first newline, up to the end of the file or until the buffer is full |
| NshText.ReadAt | apps/nshlib/nsh_script.c:121-143 | in a regular file, the line read from the first byte of a command that begins a line or a loop gives that command and the rest of its line and no others, with the offsets that `done` needs |
| NshFile.CommandAlike | apps/nshlib/nsh_parse.c:2295-2463 | a command does the same in two states that differ only in the recorded positions of open loops, and leaves two such states |
| NshFile.FileIsMachine | apps/nshlib/nsh_script.c:60-162 | a regular file, read by lines and jumped in by bytes, returns if and only if its commands run by the machine do, after the same commands with the same status and return value |
| NshFile.FileMeansItsTree | apps/nshlib/nsh_script.c:60-162 | from the bytes of a file to its meaning: a regular file whose commands are a faithful script gives exactly what the script means, and diverges exactly when it does |
| NshPrint.ReadWords | apps/nshlib/nsh_parse.c:1425-1680 | plain words with any blanks before, between and behind them are read as just these words |
| NshPrint.ReadBack | apps/nshlib/nsh_parse.c:1779-1780 | each reserved word as it is spelled, and no other plain word, is taken for that reserved word |
| NshPrint.FileIsRead | apps/nshlib/nsh_script.c:60-162 | commands in plain words, laid out in any lines with semicolons between them, are read back from the text of the file in that order and in those lines, and the file is regular |
| NshPrinted.TextIsRead | apps/nshlib/nsh_script.c:60-162 | a tree in plain words, written with `while`, `until`, `do`, `done`, `if`, `!`, `then`, `else`, `fi` and `break` as they are spelled, is a regular file whose commands are those of the tree |
| NshPrinted.TextMeansItsTree | apps/nshlib/nsh_script.c:60-162 | running that text does, for every tree, what NSH makes of the tree, and for every faithful tree what the tree means; it returns exactly if the tree's run does |
| NshPrinted.LinesMeanTheirTree | apps/nshlib/nsh_script.c:60-162 | the same for the text of a faithful script in any layout it can be run in, several commands on a line included |
| NshParser.Parser.constructor | apps/nshlib/nsh.h:793-832 | the parser object as allocated is the all-zero machine state |
| NshParser.Parser.LoopIsEnabled | apps/nshlib/nsh_parse.c:1687-1704 | reads the loop's enable bit, in state DO only |
| NshParser.Parser.ItefIsEnabled | apps/nshlib/nsh_parse.c:1714-1738 | decides by the state and the condition of the innermost `if`, unless that is disabled |
| NshParser.Parser.CmdIsEnabled | apps/nshlib/nsh_parse.c:1748-1756 | both of them |
| NshParser.Parser.Save | apps/nshlib/nsh_parse.c:425-482 | the arrays and flags after it are those of the machine's SaveResult, and so is the result |
| NshParser.Parser.EnterLoop | apps/nshlib/nsh_parse.c:1817-1837 | the push in place is the machine's, with the index raised and the new entry filled in |
| NshParser.Parser.LeaveLoop | apps/nshlib/nsh_parse.c:1886-1921 | the pop in place is the machine's, with the jump asked for only if the body was enabled |
| NshParser.Parser.Loop | apps/nshlib/nsh_parse.c:1764-1947 | the in-place parser refines ParseLoop: same state, remaining tokens and error, on every token list |
| NshParser.Parser.Itefs | apps/nshlib/nsh_parse.c:1955-2109 | the in-place parser refines ParseItef in the same sense |
| NshParser.Parser.BreakLoop | apps/nshlib/nsh_parse.c:2596-2619 | the in-place update refines CmdBreak |
| NshParser.Parser.Run | apps/nshlib/nsh_command.c:870-926 | the in-place update refines Execute: `break` alone acts on the parser, with arguments it fails, and everything else is run |
| NshParser.Parser.Command | apps/nshlib/nsh_parse.c:2295-2463 | the in-place parser refines ParseCommand: same state, commands run and result |
| NshParser.Parser.Script | apps/nshlib/nsh_script.c:60-162 | after any number of commands the object is where the machine is, so every theorem about the machine holds of it |
| NshLexer.EscapeNotionsAgree | apps/nshlib/nsh_parse.c:985-1009 | the forward flag of nsh_strchr, the prev/quoted scan of nsh_argument and the backward parity of nsh_argexpand agree on which characters are escaped, at every position of every string |
| NshLexer.DequoteIsKept | apps/nshlib/nsh_parse.c:1058-1104 | nsh_dequote removes the unescaped backslashes and nothing else, so its notion of escaped is the same one |
| NshLexer.FindIsFirstUnescaped | apps/nshlib/nsh_parse.c:985-1009 | nsh_strchr finds the first unescaped occurrence, and None means that there is none |
| NshLexer.SpecialIsFirstUnescaped | apps/nshlib/nsh_parse.c:1136-1165 | the search of nsh_argexpand stops at the first unescaped back-quote or dollar sign, or at the end |
| NshLexer.TokenEndIsFirst | apps/nshlib/nsh_parse.c:1526-1568 | a token ends at the first of its terminators that is neither escaped nor between back-quotes, or with the text |
| NshLexerLaws.DequoteEscape | apps/nshlib/nsh_parse.c:1058-1104 | dequoting undoes escaping, for every string |
| NshLexerLaws.ReadQuotedToken | apps/nshlib/nsh_parse.c:1425-1680 | a quoted, escaped argument is read back as that argument, whatever follows it, and the rest of the line is left |
| NshLexerLaws.PrintRoundTrip | apps/nshlib/nsh_parse.c:2500-2583 | any list of arguments printed as quoted tokens is read back as one command with exactly those arguments, empty ones and ones with semicolons, hash signs or newlines included |
| NshLexerLaws.SignsAreTokens | apps/nshlib/nsh_parse.c:1458-1480 | a single or double greater-than sign is a token of its own, and nothing behind a comment sign is read |
| NshLine.LineIsCut | apps/nshlib/nsh_parse.c:2500-2583 | every line is cut at the semicolons that stand outside its quoted strings and before the first comment sign or newline outside them, and nowhere else; it is in error exactly if a quoted string that is not behind such a sign stays open, and then what follows the last semicolon is no command |
| NshLine.SplitOfJoined | apps/nshlib/nsh_parse.c:2500-2583 | any texts that close their quoted strings and have no semicolon, comment sign or newline outside them, put together with semicolons, are split into just these texts; a comment or newline behind them goes with the last and is never split |
| NshLine.QuotedIsWhole | apps/nshlib/nsh_parse.c:2563-2583 | a string in quotation marks, with semicolons, comment signs, newlines and escaped quotation marks in it, is such a text |
| NshLexerLaws.ExpandTemplate | apps/nshlib/nsh_parse.c:1112-1351 | text with references and commands in back-quotes, possibly ending in a bare reference, expands to the text with each replaced by its value and then dequoted |
| NshLexerLaws.ExpandPlainTemplate | apps/nshlib/nsh_parse.c:1112-1351 | if the values hold no backslash, that is the dequoted text with the values put in untouched |
| NshLexerLaws.ReferenceKeepsValueIff | apps/nshlib/nsh_parse.c:1112-1351 | a reference gives the value of its variable if and only if the value holds no backslash |
| NshLexerLaws.OutputIsKeptIff | apps/nshlib/nsh_parse.c:1204-1252 | a command in back-quotes gives its output if and only if that holds no backslash |
| NshLexerLaws.VariablesGiveTheirValues | apps/nshlib/nsh_parse.c:1017-1052 | a variable set to a value without backslashes gives it, with and without brackets; one that is not set gives nothing; `$?` is "0" after a success and "1" after a failure |
| NshLexerLaws.TemplatesKeepValuesIff | apps/nshlib/nsh_parse.c:1112-1351 | all texts with references to a set of variables and to the output of a set of commands expand as they are meant if and only if no value of these holds a backslash |
| NshLexerLaws.LoffsIsStartIffUnquoted | apps/nshlib/nsh_parse.c:2500-2583 | the offset recorded for a command of a line is where the command begins if and only if no quotation mark stands in it, and otherwise where its last quoted string ends |
| NshLexerLaws.ResumeAtLoopTopIff | apps/nshlib/nsh_parse.c:2500-2583 | reading on from the offset recorded for a command gives that command and all later ones of its line again if and only if no quotation mark stands in it |
| NshLineBuffer.StrChr | apps/nshlib/nsh_parse.c:985-1009 | the pointer loop finds the first unescaped occurrence in the C string |
| NshLineBuffer.ScanToken | apps/nshlib/nsh_parse.c:1526-1568 | the prev/quoted loop ends at the terminator that is neither escaped nor in back-quotes |
| NshLineBuffer.DequoteAt | apps/nshlib/nsh_parse.c:1058-1104 | shifting characters down in place leaves the dequoted string, and nothing outside it is touched |
| NshLineBuffer.QuotedBefore | apps/nshlib/nsh_parse.c:1136-1165 | counting backslashes backwards tells whether the character is escaped |
| NshLineBuffer.NextSpecial | apps/nshlib/nsh_parse.c:1129-1166 | hopping from separator to separator stops at the first one that is not escaped |
| NshLineBuffer.Value | apps/nshlib/nsh_parse.c:1202-1351 | the reference is cut out in place, its value and the text behind it are those of the reference function, and an unfinished reference is reported |
| NshLineBuffer.ArgExpand | apps/nshlib/nsh_parse.c:1112-1351 | ends on every string and gives its expansion, although the buffer is cut while it is read; nothing outside the string is touched |
| NshLineBuffer.Argument | apps/nshlib/nsh_parse.c:1425-1680 | the token taken, or its absence, and the place to go on from are those of the token function |
| NshLineBuffer.Arguments | apps/nshlib/nsh_parse.c:2389-2399 | repeated calls give the tokens of the command in order, up to the limit on the number of arguments |
| NshLineBuffer.LookAhead | apps/nshlib/nsh_parse.c:2500-2560 | finds the end of the command, a semicolon, the end of a quoted string, or that its closing mark is missing |
| NshLineBuffer.SplitLine | apps/nshlib/nsh_parse.c:2479-2589 | cutting the line at its semicolons in place, one command at a time, hands on exactly its commands, with the offsets recorded for them, up to and including the first that fails or asks for a jump; the line ends in an error if it runs into an unmatched quotation mark before that |
| PcmStream.CuttingIsInvisible | nuttx/audio/pcm_decode.c:508-661 | however a stream is cut into buffers, the outputs together and the state left are those of the uncut stream, from any phase |
| PcmStream.FixedRateKeeps | nuttx/audio/pcm_decode.c:508-661 | at a fixed rate, from a sample boundary, the outputs are the bytes whose stream position falls in the first sample of each period, for every cutting |
| PcmStream.KeepsRateIff | nuttx/audio/pcm_decode.c:540-638 | the period is the sample size times the rate, on every stream, if and only if the bytes to skip fit in 8 bits |
| PcmStream.RateChangesTearIff | nuttx/audio/pcm_decode.c:434-661 | with samples of 1, 2 or 4 bytes, over any run of buffers and changes of rate, normal speed included, each byte put out has the same place within its sample in input and output if and only if, whenever something is put out, the skips cut short by returns to normal speed add up to whole samples; wrapped skip counts included |
| PcmStream.RateChangesNeverTear | nuttx/audio/pcm_decode.c:434-661 | so nothing is torn as long as fast forward goes on, whatever its rates |
| PcmStream.ReturnTearsSample | nuttx/audio/pcm_decode.c:470-481 | with samples of two bytes, a return to normal speed after three bytes at rate 2 tears a sample |
| PcmStream.NeverTearsIff | nuttx/audio/pcm_decode.c:602-655 | for any sample size, a rate tears no sample if and only if the 8-bit skip count is a whole number of samples |
| PcmStream.LeavesNoPhaseIff | nuttx/audio/pcm_decode.c:508-661 | a stream played at one rate, in whatever buffers, leaves no skip count and no partial sample if and only if its length is a whole number of periods |
| WavHeader.AcceptsSupportedIff | nuttx/audio/pcm_decode.c:351-422 | a header counts as valid exactly if its WAV fields are; that agrees with the checks on bits per sample and channels if and only if the header is no WAV header or its format is supported |
| WavHeader.AcceptsMono24 | nuttx/audio/pcm_decode.c:401-413 | a header with samples of 24 bits, which the code means to reject, is accepted |
| WavHeader.WrittenHasFormat | nuttx/include/nuttx/audio/pcm.h:88-120 | the 44 bytes written field by field, with any channels, bits and sample size below 256 and any lengths and rates, begin a file of that format |
| WavHeader.ValidIffWritten | nuttx/audio/pcm_decode.c:328-340 | the headers that pass the check are exactly those written in some format, byte for byte |
| WavHeader.FormatIsRead | nuttx/audio/pcm_decode.c:351-395 | channels, bits and sample size read from a header are those it was written with |
| PcmDecoder.LoopEndsIff | nuttx/audio/pcm_decode.c:602-655 | the loop of pcm_subsample ends, whatever is to be skipped and whatever the buffer holds, if and only if samples have a size or the buffer holds no more than is to be skipped |
| PcmDecoder.Decoder.Configure | nuttx/audio/pcm_decode.c:434-494 | switching fast forward on or off starts on a sample boundary, and changing its rate keeps the phase |
| PcmDecoder.Decoder.CompletePartial | nuttx/audio/pcm_decode.c:544-595 | the rest of a sample begun in the last buffer is put in front; the write offset is at or below the read offset and write offset plus space left is the buffer size |
| PcmDecoder.Decoder.Pass | nuttx/audio/pcm_decode.c:602-655 | one skip or copy is the decimation of the bytes it consumes, is the pass LoopEndsIff speaks of, makes progress and overwrites no unread byte |
| PcmDecoder.Decoder.Compact | nuttx/audio/pcm_decode.c:597-655 | the loop ends, the bytes in front are the decimation of everything read, and the write offset plus the space left is the buffer size |
| PcmDecoder.Decoder.Subsample | nuttx/audio/pcm_decode.c:508-661 | what the buffer holds afterwards and the phase left are the decimation of what it held, and the phase stays valid |
| PcmDecoder.Decoder.ParseWav | nuttx/audio/pcm_decode.c:351-422 | a header written in a format leaves exactly its channels, bits and sample size in the decoder, supported or not; the result is not 0 exactly if the header is written in some format, and otherwise the decoder is as it was |
| PcmDecoder.Decoder.Enqueue | nuttx/audio/pcm_decode.c:1022-1168 | a first buffer without a valid header is not passed on and changes nothing; one that the lower driver refuses is not passed on but has already set the sample size; otherwise the audio data behind the header, and every later buffer whole, is passed on decimated, the sample size stays that of the file, and streaming ends with the final buffer |
| PcmDecoder.Decoder.PlayFile | nuttx/audio/pcm_decode.c:434-1168 | for every list of buffers with a change of rate before each, to normal speed or any other: the file is taken up exactly if its header is valid and the lower driver accepts it; at one rate the lower driver gets the kept bytes of the audio data, and no phase is left exactly if that is a whole number of periods; at normal speed it gets everything; at any rates no sample of 1, 2 or 4 bytes is torn if and only if no return to normal speed cuts a skip short within a sample |
| PcmDecoder.StandardFormatKeeps | nuttx/audio/pcm_decode.c:415-661 | of a file with 8 or 16 bits and one or two channels, played at one rate whose skips fit in 8 bits, exactly the first channels * bits / 8 bytes of each `rate` samples are passed on |
| PcmDecoder.RunPlaysKeptBytes | nuttx/audio/pcm_decode.c:508-661 | buffers decimated one after the other at one rate give the kept bytes of what they hold together |
| PcmDecoder.RunTearsIff | nuttx/audio/pcm_decode.c:434-661 | over any run of buffers and changes of rate, what the lower driver gets is the bytes of the stream at the positions kept, and with samples of 1, 2 or 4 bytes byte k of it stood at place k modulo the sample size if and only if what was cut short is whole samples |
| ModbusTable.Scan | apps/modbus/mb.c:395-411 | the slot called has the requested code and no slot before it has it or is empty; none is called only if an empty slot comes before the code |
| ModbusTable.ReachedIff | apps/modbus/mb.c:395-411 | a handler is called exactly if a slot has the code and no slot before it is empty |
| ModbusTable.RegistrationOutcome | apps/modbus/mb.c:243-290 | a code outside 1..127 is invalid; a handler finds no room exactly if every slot has another one, and otherwise takes the first that is empty or its own; after a removal the code is out of reach and other slots are as they were; an error changes nothing |
| ModbusTable.NeverCallsNull | apps/modbus/mb.c:243-290 | in every table reached by registrations and removals a slot has code 0 exactly if it has no handler, so no request calls an absent one |
| ModbusTable.RegisteredIsReached | apps/modbus/mb.c:243-290 | after a successful registration the scan reaches a handler for the code, whatever gaps there are, and it is the new one if and only if no earlier slot has the code |
| ModbusTable.RemovalKeepsIff | apps/modbus/mb.c:243-290 | removing one function leaves another in place if and only if that one was out of reach already, the removed one was absent, or the other stands before the gap |
| ModbusTable.HandlerTable.RegisterCB | apps/modbus/mb.c:243-290 | the loops over the static table do what Register says, with its status |
| ModbusTable.HandlerTable.ScanFor | apps/modbus/mb.c:395-411 | the loop of eMBPoll calls the slot Scan names |
| ModbusSlave.StepKeepsInv | apps/modbus/mb.c:352-444 | every event, enabling, disabling, registration and post of the port keeps the invariant: a pending EXECUTE is for the last accepted frame, unanswered and still in the buffer |
| ModbusSlave.SlaveRunsAreSafe | apps/modbus/mb.c:352-444 | over every run a pending EXECUTE is for a frame to this slave or to all, replies are no more than accepted unicast frames, no frame is answered twice, no broadcast is answered, and an exception reply is the request code with its error bit and the exception code (section 7 of the MODBUS Application Protocol Specification V1.1b3; section 2.1 of MODBUS over Serial Line V1.02) |
| ModbusSlave.StepAnswers | apps/modbus/mb.c:376-437 | a step accepts exactly the valid frames for this slave or for address 0, and sends exactly one frame if it handles EXECUTE for a frame that is no broadcast: the handler's response if one is reached and returns 0, and otherwise the code with its highest bit set and the exception, 1 if no handler is reached |
| ModbusSlave.RunSendsWhatIsDue | apps/modbus/mb.c:352-444 | over every run the frames sent are exactly those due, in order, one for each unicast frame whose EXECUTE is handled |
| ModbusSlave.AnsweredIff | apps/modbus/mb.c:352-444 | over every run a frame is answered if and only if it was no broadcast and its EXECUTE was handled |
| ModbusSlave.SlaveStack.EnableStack | apps/modbus/mb.c:311-328 | only a disabled stack is enabled, and the invariant is kept |
| ModbusSlave.SlaveStack.DisableStack | apps/modbus/mb.c:330-350 | any initialised stack is disabled, and the invariant is kept |
| ModbusSlave.SlaveStack.ExecuteRequest | apps/modbus/mb.c:388-437 | a frame is sent exactly if the request was no broadcast; it is the handler's response, or the code with its highest bit set and the exception |
| ModbusSlave.SlaveStack.PollOnce | apps/modbus/mb.c:352-444 | one poll of the object is one poll of the machine, so the results about runs carry over; a frame is sent exactly if the stack is enabled and handles EXECUTE for a unicast, and it is the frame due |
| ModbusMaster.MasterRunsAreSafe | apps/modbus/mb_m.c:274-436 | over every run the run resource is released once for each success and once for each error event handled, each EXECUTE came to exactly one success or one posted error, the master-mode flag is down between polls and was up for every handler call, and no absent handler was called |
| ModbusMaster.BroadcastReachesAll | apps/modbus/mb_m.c:354-365 | a broadcast calls the handler once for each slave 1..N in order, and succeeds if and only if the last call does |
| ModbusMaster.ExecuteOutcome | apps/modbus/mb_m.c:324-393 | what is logged ends in success and release if and only if the exception left is 0, and otherwise in one posted error; with the error bit set no handler is called and the exception is the second byte; with no handler in reach none is called and it is 1; in a unicast it is what the one call returns, in a broadcast what the last does |
| ModbusMaster.OtherOutcomes | apps/modbus/mb_m.c:306-432 | a received frame is executed next if and only if it is valid and from the destination, and otherwise a receive error is posted; an error event calls back once with the error recorded and releases the run resource |
| ModbusMaster.MasterStack.CallAll | apps/modbus/mb_m.c:354-365 | the loop over the slaves makes those calls and leaves the exception and the address of the last one |
| ModbusMaster.MasterStack.CallHandler | apps/modbus/mb_m.c:324-380 | the calls made and the exception left are those due: from the frame if its error bit is set, 1 with no handler in reach, and otherwise what the last call in master mode returns |
| ModbusMaster.MasterStack.ExecuteResponse | apps/modbus/mb_m.c:324-393 | after the calls due it ends in success and release if the exception left is 0, and otherwise in one posted error |
| ModbusMaster.MasterStack.PollOnce | apps/modbus/mb_m.c:274-436 | one poll of the object is one poll of the machine, so the results about polls and runs carry over |
| Dd.Transfer.ReadSector | apps/nshlib/nsh_ddcmd.c:140-163 | short reads are collected into a whole sector, shorter only at the end of the input; it fails only on a read that does |
| Dd.Transfer.WriteSector | apps/nshlib/nsh_ddcmd.c:109-134 | short writes add up to exactly the sector, or to a beginning of it on an error, and the error is that of the last write |
| Dd.Transfer.CopySector | apps/nshlib/nsh_ddcmd.c:322-363 | one pass adds the zero-padded sector, if it is not to be skipped, and counts it; it fails only if its last read or write does |
| Dd.Transfer.Copy | apps/nshlib/nsh_ddcmd.c:322-363 | for every way reads and writes are cut, it succeeds if and only if no read or write failed and stops at the first that does; success means that the output is the zero-padded input sectors from the skip index on, at most count of them, and on an error it is a beginning of that |
| HexDump.Dump | apps/nshlib/nsh_dbgcmds.c:418-496 | for every way reads are cut, it succeeds if and only if none of the reads made failed, and the chunks dumped join to the file's bytes from skip up to skip plus count or the end, each chunk under the offset of its first byte; on a read error it stops there, with a beginning of that |
| ExePath.JoinFields | nuttx/binfmt/binfmt_exepath.c:161-246 | the fields hold no colon and joined with colons give the path value back |
| ExePath.EntriesStep | nuttx/binfmt/binfmt_exepath.c:161-246 | stepping from colon to colon visits the fields of the value, without a last one that is empty |
| ExePath.Walk.constructor | nuttx/binfmt/binfmt_exepath.c:96-131 | the copy holds the whole value and the walk is at its beginning |
| ExePath.Walk.NextEntry | nuttx/binfmt/binfmt_exepath.c:190-216 | cutting the copy at the colon in place takes off exactly the next entry |
| ExePath.Walk.Next | nuttx/binfmt/binfmt_exepath.c:161-246 | gives the first of the remaining entries that leads to a regular file and leaves those behind it, or gives nothing and has used up all |
| ExePath.Walk.CallTimes | nuttx/binfmt/binfmt_exepath.c:161-246 | any number of calls give, in order and once each, the entries that name a regular file, and after them nothing, for ever |
| CopyArgv.Binary.CopyStrings | nuttx/binfmt/binfmt_copyargv.c:133-147 | the second pass puts every string in place, one behind the other, with its offset in the table |
| CopyArgv.Binary.Copy | nuttx/binfmt/binfmt_copyargv.c:84-154 | no list or an empty one copies nothing, more than 256 strings are refused, and otherwise the copy has the same strings in the same order and a NULL at the end, in an allocation that the table and the strings fill exactly |
| CopyArgv.StringsAreDisjoint | nuttx/binfmt/binfmt_copyargv.c:98-151 | the strings, one or many, lie behind the table and inside the allocation, each ends before the next begins, and the last one ends with the allocation |

## Left out

- Configuration: loops, `if`, several commands on a line, quoting, argument concatenation, arguments from commands and the environment are on; background commands, `nice` and output redirection are off.
- Running commands: a command is an answer of the world. Parsing that is re-entered (`sh` in a script, `time`) and the temporary files behind back-quotes are not modelled; back-quoted text is replaced by what an arbitrary function gives for it.
- NshMachine.ParseLoop: failures of `fseek` and `ftell` and the 16-bit width of the recorded offset are not modelled.
- NshFile.FileIsMachine: for files whose lines fit the line buffer, close their quotation marks, hold no NUL, have no quotation mark in a loop head (which by `NshLexerLaws.ResumeAtLoopTopIff` cannot be dropped) and no reference in the words up to the name of a command, run with no loop open. References in arguments are allowed: an argument is its text, and what it expands to is up to the world. The limit on the number of arguments is in `NshLineBuffer.Arguments` only.
- NshPrinted.TextMeansItsTree: for trees in plain words (no quotation marks, backslashes, back-quotes, blanks, semicolons or comment signs in a word, no reference in the name of a command) whose lines fit the line buffer. Quoted words are in `NshLexerLaws.PrintRoundTrip`.
- NshTheorem.ScriptMeansItsTree: if errors are ignored, a command that may fail is the last of its line, because the rest of the line is given up (`NshScripts.OneLineLoopStaysOpen`), and in scripts with a `break` inside an `if` of a loop body so are `else` and `fi`. This is sufficient and not shown to be necessary. If errors stop the script, a line may hold any commands.
- NshPaths.KeepsMeaningIff: sets aside scripts in which a loop that stands in an `if` has another loop in its body with a `break` inside an `if`. There being faithful is still enough (`NshTheorem.ScriptMeansItsTree`) but not necessary (`NshScripts.MendedKeepsMeaning`), and `NshTheorem.MachineIsEval` says exactly what such scripts do. The same holds of `NshLevels.NeverRises`, `NshPaths.Tracks` and `NshPaths.UnfaithfulDiffers`.
- NshParser.Parser.Script: watches a script for a given number of commands, because a script may run for ever.
- Allocation failure, except in `CopyArgv.Binary.Copy`.
- PcmDecoder.Decoder.Enqueue: while fast forwarding, requires that the header of a file that is played has a sample size above 0, because the loop would not end (`PcmDecoder.LoopEndsIff`), and that the phase left by the file before fits it, because the code does not reset it (`PcmStream.LeavesNoPhaseIff` says which files leave a phase).
- PcmDecoder.StandardFormatKeeps: for rates whose skips fit in 8 bits, because at others the decoder does not keep to its rate (`PcmStream.KeepsRateIff`).
- PcmDecoder.Decoder.PlayFile: is the order in which a player calls the decoder, for a file whose header gives a sample size above 0 and begun with no phase left; that the lower driver accepts the first buffer but refuses a later one does not change what is passed on.
- The other operations of the PCM decoder (start, stop, volume and the like) and the forwarding in `audio.c`.
- Modbus framing, the function handlers and the frame layer are arbitrary answers; the event queue of the port, which is not part of this model's source, is a mailbox with one place that anyone may overwrite but into which only the stack posts EXECUTE. Closing and initialising anew are not modelled.
- Dd.Transfer.Copy: a write gives at least one byte or an error, and the input has fewer than 2^32 sectors; option parsing and opening files are left out.
- HexDump.Dump: negative values of skip and count are left out, and so is opening the file.
- ExePath.Walk.Next: the file system does not change between calls.
- `nsh_catfile`, `cmd_cp`, `cmd_cmp`, network, USB, login, mount, codec and module commands, command tables and help.
