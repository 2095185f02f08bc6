# minishell — a Dafny model of the command-line core

This project models the command-line core of `247_loc_minishell.c`, a small
interactive shell, in Dafny:

- `read_input` copies the line into the fixed `MAX_LINE` (1024) buffer.
- `parse_input` splits the line into words with `strtok` over `" \t\n"`.
  It stores at most `MAX_ARGS - 1` (63) of them in an argument array of
  `MAX_ARGS` slots, followed by a NULL.
- `detect_piping` cuts the line at its first `|` and tokenizes each side.
- `detect_redirection` finds the first `>` or `>>` word. It picks the open
  flags and the target word and cuts the argument list with a NULL.
- `main` runs a fixed sequence of checks on each line:
  1. an empty line is ignored;
  2. a `|` makes a pipeline;
  3. a line with no words is skipped;
  4. `exit`, `cd`, `pwd`, `clear` and `ls` are matched exactly on the first word;
  5. everything else goes to `execute_command`.
- `handle_cd` checks that `cd` has an argument before calling `chdir`.

Modules:

- `CStrings`: NUL-terminated buffers, plus `strchr`, `strncpy` and the bounded
  copy the shell needs.
- `Tokenizer`: the `strtok` loop and the argument arrays. Arrays are
  `array<Slot>`, where a slot is `Null` or `Tok(word)`.
- `Pipes`: `detect_piping`, which works in place on the input buffer.
- `Redirection`: `detect_redirection`, which works in place on the
  argument array.
- `Dispatcher`: the decision `main` takes for one line, written as a function.
- `Shell`: a class that holds the buffers of `main`, the working directory
  and the processes launched so far.
  - Its methods `Step` and `Run` run the loop body and the loop itself.
  - Each method is proved equal to the functions `Dispatch`, `Effect` and
    `Session`.
  - Lemmas state what those functions promise.
- `Scenarios`: concrete lines, proved from the general lemmas.

Processes are not modelled. A fork-and-exec is recorded as a `Job`
(`Single` or `Piped`) appended to the shell's list of launches. `chdir` and
`open` are given by an `Env` parameter that the caller supplies. The lines
the user types are the parameter `lines` of `Run`. When they run out, the
loop ends with status 1, as `read_input` exits with `EXIT_FAILURE` when
`readline` returns NULL.

## Model

| member | source | states |
|---|---|---|
| CStrings.CStr | 247_loc_minishell.c:216 | The C string of a buffer is its longest NUL-free prefix, and a NUL follows it whenever it is shorter than the buffer. |
| CStrings.IndexOf | 247_loc_minishell.c:77 | `strchr` gives the position of the first occurrence of the character, or nothing exactly when the character does not occur. |
| CStrings.CutAt | 247_loc_minishell.c:79-81 | A NUL written at position p of the C string leaves its first p characters as the C string at the start, and the rest of the old string as the C string just after p. |
| CStrings.StrNCpy | 247_loc_minishell.c:62 | `strncpy(dst, src, n)` as the C library defines it for a NUL-free source: each of the n slots holds the source character or NUL, and nothing is written past n. |
| CStrings.ShortLineCopied | 247_loc_minishell.c:62 | A NUL-free line shorter than the buffer is copied whole and stays NUL-terminated. |
| CStrings.LongLineUnterminated | 247_loc_minishell.c:62 | As written, a line of MAX_LINE characters or more leaves the buffer with no NUL at all. |
| CStrings.LongLineExample | 247_loc_minishell.c:62 | A line of 1024 letters is a concrete case that leaves the buffer unterminated. |
| CStrings.Truncated | 247_loc_minishell.c:45 | The line the shell keeps has fewer than MAX_LINE characters and is a prefix of the typed line; it is shorter than the typed line only when it holds exactly MAX_LINE - 1 characters. |
| CStrings.BoundedCopy | 247_loc_minishell.c:62 | The corrected copy fills MAX_LINE slots, always contains a NUL, and its C string is exactly the truncated line. |
| Tokenizer.WordLen | 247_loc_minishell.c:67 | A word runs up to the first space, tab or newline: every character before that point is a non-delimiter, and a delimiter follows when the word stops early. |
| Tokenizer.WordsAreWords | 247_loc_minishell.c:67-71 | Every token of `Tokenize`, the word sequence strtok delivers, is non-empty and contains no delimiter. |
| Tokenizer.TokensKeepText | 247_loc_minishell.c:67-71 | The tokens of `Tokenize` joined together are the line with its delimiters deleted: no character is lost, reordered or added. |
| Tokenizer.NoWordsIffBlank | 247_loc_minishell.c:225-229 | A line gives no token exactly when every character is a delimiter, which is when `args[0]` is NULL. |
| Tokenizer.SepSplits | 247_loc_minishell.c:67-71 | A delimiter always ends a word: the tokens of a + c + b are those of a followed by those of b. |
| Tokenizer.Parse | 247_loc_minishell.c:69-73 | The stored words are a prefix of the tokens, at most MAX_ARGS - 1 of them, and tokens are dropped only when that cap is reached. |
| Tokenizer.SkipSeps | 247_loc_minishell.c:67 | `strtok` skips leading delimiters: it stops at the first non-delimiter at or after the resume point, or at the end. |
| Tokenizer.StrTok | 247_loc_minishell.c:67-71 | Each `strtok` call that finds a word resumes strictly after where it started and within the line. |
| Tokenizer.StrTokResumes | 247_loc_minishell.c:67-71 | The word one `strtok` call returns, followed by the words of the following calls, is exactly the tokenization of the text from the resume point. |
| Tokenizer.HoldsArgv | 247_loc_minishell.c:73 | An array that holds a word list followed by NULL is read back by `execvp`, `strcmp` and `args[1]` as exactly that word list. |
| Tokenizer.ArgvHolds | 247_loc_minishell.c:88 | Conversely, a NULL-terminated array holds its own word list followed by NULL. |
| Tokenizer.Advance | 247_loc_minishell.c:69-72 | In one iteration of the loop, the token in hand is the next word of the line, and the next `strtok` call continues the list. |
| Tokenizer.StoredAll | 247_loc_minishell.c:69-73 | When the loop stops, either on NULL or at the cap, it has stored exactly the words `parse_input` keeps. |
| Tokenizer.StoreWords | 247_loc_minishell.c:67-72 | The `strtok` loop fills the first slots with the stored words and returns their count. Slots from the count on are unchanged. |
| Tokenizer.ParseInput | 247_loc_minishell.c:66-74 | After `parse_input(input + from, args)`, args holds the stored words of the C string at `from`, then NULL. Later slots are unchanged. |
| Pipes.SplitPipe | 247_loc_minishell.c:77-81 | There is no split exactly when the line has no pipe sign. Otherwise the line is the left side, a pipe sign, then the right side, and the left side has no pipe sign. |
| Pipes.SplitAtFirstPipe | 247_loc_minishell.c:77-79 | The split is unique: for any pipe-free text followed by a pipe sign, that text is the left side. |
| Pipes.LaterPipeStaysInWord | 247_loc_minishell.c:77-81 | A second pipe sign is not a split point. It stays inside a word of the right side, which the right command then receives as an argument. |
| Pipes.PipeCut | 247_loc_minishell.c:79-81 | After a NUL is written over the first pipe sign, the buffer holds the left side as the C string at 0 and the right side as the C string at p + 1, and both are terminated. |
| Pipes.DetectPiping | 247_loc_minishell.c:76-85 | Reports 1 exactly when the C string holds a pipe sign. The buffer then has NUL at that position, left holds the words before it and right the words after it, each NULL-terminated. Otherwise nothing changes. |
| Redirection.Resolve | 247_loc_minishell.c:88-101 | There is no redirection exactly when no word is `>` or `>>`. Otherwise it reports the words before the first operator, that operator's mode, and the word after it, which is absent when the operator is last. |
| Redirection.ResolveAt | 247_loc_minishell.c:88-98 | The same outcome, stated from the position of the first operator. |
| Redirection.Flags | 247_loc_minishell.c:90-95 | The redirect type always has the `O_WRONLY` and `O_CREAT` bits (Linux values). It has the `O_TRUNC` bit exactly for `>` and the `O_APPEND` bit exactly for `>>`. |
| Redirection.DetectRedirection | 247_loc_minishell.c:87-102 | It reports a redirection exactly when Resolve does. Then only the operator's slot changes, to NULL; args reads as the words before it; the type is the operator's flags; the file is the following slot. Otherwise nothing changes. |
| Dispatcher.CdArgument | 247_loc_minishell.c:170-173 | `cd` has no argument exactly when there is no second word. Otherwise its argument is the second word. |
| Dispatcher.DispatchWordsMeaning | 247_loc_minishell.c:227-243 | `DispatchWords` is the builtin chain. A word list with no words is skipped, and each builtin is chosen exactly when it is the first word; `cd` takes the second word. The list goes to `execute_command`, with every stored word, exactly when the first word is not a builtin. |
| Dispatcher.DispatchOrder | 247_loc_minishell.c:216-243 | For `Dispatch`, the whole decision for one line: a line is a pipeline exactly when it has a pipe sign, and is skipped exactly when it is all delimiters. It goes to `execute_command` exactly when it has no pipe sign and its first word is not a builtin, and then with all its stored words. |
| Dispatcher.PipelineSides | 247_loc_minishell.c:220-222 | A pipeline's two argument lists are the stored words on either side of the first pipe sign. |
| Dispatcher.BuiltinIgnoresFollowingWords | 247_loc_minishell.c:231-243 | A builtin first word other than `cd` decides the action whatever follows it, `>` and `>>` included. |
| Shell.LaunchMeaning | 247_loc_minishell.c:132-167 | For `LaunchCommand`, the outcome of `execute_command`: the child gets exactly the words before the first operator, or all of them when there is none. Its output goes to the next word, opened in the operator's mode and only when it opens. An operator in last position launches nothing. |
| Shell.LaunchAtOperator | 247_loc_minishell.c:136-146 | From the first operator's position: with no word after it nothing is spawned. Otherwise the command is spawned with the words before the operator and its output to the next word exactly when that word opens; when it does not open, `open` fails on it. |
| Shell.ChangeDir | 247_loc_minishell.c:169-177 | With no argument `cd` reports an error. Otherwise the outcome is exactly what `chdir` returns for the second word. |
| Shell.EffectMeaning | 247_loc_minishell.c:216-243 | For `Effect`, the state change of one line: only `cd` changes the working directory, and only to what `chdir` returned. A successful `chdir` does set it. Launches are only appended: the pipeline of the two sides for a pipeline, the spawned job for `execute_command`, and none for other actions. |
| Shell.Session | 247_loc_minishell.c:213-244 | The loop reads at most all lines. Status 0 means it stopped at a line it read. Any other status is 1 and means every line was read. |
| Shell.ExitIffSomeExitLine | 247_loc_minishell.c:231-232 | The loop ends with status 0 exactly when some line dispatches to `exit`, and it stops at the first such line. |
| Shell.NothingAfterExit | 247_loc_minishell.c:231-232 | Lines after `exit` are never read: appending more lines changes nothing. |
| Shell.CwdFromChdir | 247_loc_minishell.c:173 | The working directory is always the starting one or a directory `chdir` accepted. |
| Shell.Shell.constructor | 247_loc_minishell.c:209-211 | The buffers of `main` have MAX_LINE and MAX_ARGS slots and are three distinct argument arrays. |
| Shell.Shell.ReadInput | 247_loc_minishell.c:54-64 | The buffer receives the bounded copy of the line, so it holds the truncated line as a C string. |
| Shell.Shell.HandleCd | 247_loc_minishell.c:169-177 | The result is `ChangeDir` of the second word, and the working directory changes only on success. |
| Shell.Shell.ExecuteCommand | 247_loc_minishell.c:132-167 | The outcome is `LaunchCommand` of the argument list, and exactly the spawned job is appended. |
| Shell.Shell.Step | 247_loc_minishell.c:213-243 | One iteration takes the action `Dispatch` gives for the truncated line and changes the state exactly as `Effect` says. |
| Shell.Shell.RunLine | 247_loc_minishell.c:216-243 | Applied to the C string in the buffer, the checks give the action `Dispatch` gives, with that action's effect. |
| Shell.Shell.RunWords | 247_loc_minishell.c:225-243 | The single-command path takes the action `DispatchWords` gives for the stored words, with its effect. |
| Shell.Shell.RunCommand | 247_loc_minishell.c:231-243 | The builtin chain on a non-empty argument list agrees with `DispatchWords`. |
| Shell.Shell.Run | 247_loc_minishell.c:213-244 | The loop's status, its line count and the final state are those of `Session`. |
| Scenarios.EchoLineWords | 247_loc_minishell.c:67-71 | `echo hi > out.txt` tokenizes to four words. |
| Scenarios.EchoLineDispatch | 247_loc_minishell.c:241-242 | That line goes to `execute_command` with all four words. |
| Scenarios.TruncateExample | 247_loc_minishell.c:136-146 | ... which runs `echo hi` with its output truncating `out.txt`. |
| Scenarios.TrailingOperatorExample | 247_loc_minishell.c:137-140 | `echo hi >>` names no file: nothing is spawned. |
| Scenarios.BuiltinBeforeRedirectionExample | 247_loc_minishell.c:239-240 | `ls > f` runs the builtin `ls` and ignores the redirection. |
| Scenarios.SecondPipeExample | 247_loc_minishell.c:76-85 | The line `a`, pipe, `b`, pipe, `c` is the pipeline of `a` into `b` with the words pipe sign and `c` as its arguments: the second pipe sign is passed on as an argument. |
| Scenarios.CdWithoutArgumentExample | 247_loc_minishell.c:170-171 | `cd` alone is `cd` with no argument and leaves the state as it was. |

## Left out

- Process creation is not modelled. `fork`, `execvp`, `waitpid`, `pipe`, `dup2` and `close` in `execute_command` and `execute_piped_commands` are represented by the `Job` appended to the launch list; what the child processes do is outside the model.
- Failure of `pipe()` (lines 106-109) and `fork()` is not modelled. This includes the non-redirected `fork` failure that exits the shell (lines 154-157).
- A pipeline side or a redirected command with no words (a line that starts with a pipe sign, or `> f`) is recorded as a launch. The C shell passes `execvp` a NULL name, and the child fails; the model does not follow the child.
- `readline`, `add_history` and the prompt are not modelled. The typed lines are the `lines` parameter, and their running out is the `readline` NULL case.
- The SIGINT handler (lines 48-52) is not modelled. It only prints.
- `handle_pwd`, `handle_clear` and `handle_ls` print output only. They are the actions `Pwd`, `Clear` and `Ls`, which change no modelled state.
- `chdir` and `open` are the functions of `Env`. Path resolution and the file mode 0644 are not modelled.
- `strtok` also writes a NUL after each word into the input buffer. The model copies each word as a value and leaves the buffer unchanged, because nothing reads those bytes again before the next line is copied in.
- Tokenizer.ParseInput: the stored words are values, not pointers into the buffer, so aliasing between `args` and `input` is not captured.
- CStrings.Truncated: a Dafny `char` stands for one byte of the line. `MAX_LINE` and the truncation point are counted in bytes in C and in characters here. So for multi-byte UTF-8 input, `Truncated`, `BoundedCopy`, `ShortLineCopied`, `Shell.Shell.ReadInput` and `Session` keep more than the source's 1023 bytes. For example, 600 times `é` is 1200 bytes, but the model treats it as shorter than the buffer. Word splitting, `strchr` and `strcmp` are unaffected: no byte of a multi-byte UTF-8 character equals a space, tab, newline, pipe sign or `>`.
- Shell.Shell.ReadInput: models the corrected bounded copy (`BoundedCopy`), not the `strncpy` as written. For lines of 1024 characters or more, the as-written behaviour reads past the buffer; it is kept separately in `StrNCpy` (see Findings).
- Shell.Shell.ExecuteCommand: recovers the mode from the `O_TRUNC` bit of the flags instead of passing the flags to `open`. `Redirection.Flags` sets that bit exactly for `>`.
- `Env` is fixed for the whole session: the file system never changes in the model. The `O_CREAT` open does not create its target for later lines, and a directory a child creates cannot make a later `cd` succeed. No proved property depends on this.
- Process monitoring and system information are outside this core and not part of this model.

## Findings

| source | as written | input that shows it | evidently intended | confidence | as-written member | corrected member |
|---|---|---|---|---|---|---|
| 247_loc_minishell.c:62 | `strncpy(buffer, input, MAX_LINE)` copies up to 1024 characters into the 1024-byte buffer and adds a NUL only when the line is shorter. | A line of 1024 or more bytes with no NUL, e.g. 1024 times `a`. The buffer then has no terminator, and `strlen`/`strchr`/`strtok` read past it. | Copy at most MAX_LINE - 1 characters and always NUL-terminate, so the buffer holds the line truncated to 1023 characters. | not executed | CStrings.LongLineUnterminated | CStrings.BoundedCopy |
