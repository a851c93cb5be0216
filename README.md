# CLIne in Dafny

A model of the core of the Rust crate `cline` (src/lib.rs), with proofs about it.

The crate lets a program register commands. A command is a path of tokens such as `foo bar`. The crate can then:

- complete a partly typed command line;
- execute a full line by calling the callback registered for it;
- run an interactive raw-mode prompt that reads keys from the terminal.

The model has five modules plus a module of worked examples:

- `Wrappers` holds Rust's `Option`.
- `Tokens` models `str::trim` and `str::split_whitespace`, using Unicode `White_Space` as `char::is_whitespace` does. It proves:
  - a line has no tokens exactly when it is all whitespace;
  - runs of whitespace count as one separator;
  - trimming before splitting changes nothing;
  - joining tokens with single spaces and splitting again gives the tokens back.
- `CommandTrie` models the `Cli` trie:
  - A node is a value `Node(children, handler)`, matching the by-value `HashMap<&str, Cli>` of the source.
  - `_register`, `_exec` and the descent are functions.
  - `_complete` is a recursive method. Its key filter is a loop that takes keys in an unspecified order, as a `HashMap` does.
  - The class `Cli` holds the root and the sequence of exec invocations made so far. Its methods are `new`, `register`, `register_dyn_complete`, `complete` and `exec`.
  - Callbacks are abstracted. An exec callback is known by a `HandlerId`, and each call is recorded as `Call(id, argv)`. A dynamic-complete callback is a function `dyn(id, args)`.
- `KeyDecoder` models `read_key`, the decoder from bytes to keys. It covers letters, digits, symbols, space, Del, Tab, Backspace, Enter, Ctrl-C and the `ESC [ A..D` arrow sequences.
- `LineSession` models the loop of `unix_cline_run`.
  - `Step` is what one key does to the line buffer.
  - `Requests` lists the completion and execution requests a byte stream makes.
  - The method `Run` drives a `Cli` over the stream. It is proved to make exactly the exec invocations of those requests, in order.
- `Scenarios` replays the crate's unit tests and doc examples on the model. Command names and arguments are arbitrary.

## Model

| member | source | states |
|---|---|---|
| Tokens.Trim | src/lib.rs:174 | `str::trim`: trims both ends; the result is no longer than the line and starts and ends with non-whitespace |
| Tokens.SplitWhitespace | src/lib.rs:221-222 | `str::split_whitespace`: the maximal runs of non-whitespace, in order; every element is a token |
| Tokens.TrimStartDropsWhitespace | src/lib.rs:174 | `trim` drops only whitespace at the start: the dropped prefix is all whitespace |
| Tokens.TrimEndDropsWhitespace | src/lib.rs:174 | `trim` drops only whitespace at the end: the dropped suffix is all whitespace |
| Tokens.TrimKeepsTokens | src/lib.rs:220-222 | splitting the trimmed line gives the same tokens as splitting the line, so `exec` passes portions and argv with the same tokens |
| Tokens.SplitEmptyIff | src/lib.rs:174 | a line has no tokens exactly when it is all whitespace (both directions) |
| Tokens.SplitAppend | src/lib.rs:221 | the tokens of `a + b` are those of `a` then those of `b` when the seam is whitespace or an end |
| Tokens.CollapseWhitespace | src/lib.rs:221 | any non-empty run of whitespace between two parts of a line separates them like a single space |
| Tokens.SplitOfToken | src/lib.rs:221 | a single token splits into itself |
| Tokens.JoinRoundTrip | src/lib.rs:221 | tokens joined with single spaces split back into the same tokens |
| CommandTrie.RegisterFrom | src/lib.rs:140-159 | `_register` succeeds exactly when the path is non-empty; on the empty path it leaves the node unchanged |
| CommandTrie.RegisterOn | src/lib.rs:104-111 | `register` without the callback boxing: `_register` from the root, then on Err the handler at the root; Ok exactly for a non-empty path, and the empty path changes only the root handler |
| CommandTrie.RegisterFromAt | src/lib.rs:140-159 | after `_register` of a non-empty path, the prefixes of the path exist, the handler is at the last node only, and every other path and handler is as before |
| CommandTrie.RegisterEffect | src/lib.rs:101-112 | `register`: the empty path fails and installs the handler at the root; any other path succeeds and attaches the handler at its last node only, keeping existing children |
| CommandTrie.RegisterFromTwice | src/lib.rs:140-159 | `_register` of the same path twice leaves the trie as if only the second handler had been registered |
| CommandTrie.LastRegistrationWins | src/lib.rs:101-112 | registering a path again replaces its handler and changes nothing else |
| CommandTrie.TrieExtensionality | src/lib.rs:68-71 | a trie is determined by its set of paths and the handlers at them |
| CommandTrie.Descend | src/lib.rs:228-232 | the descent consumes a prefix of the tokens that is a path, and stops at the end or at a token that is not a child |
| CommandTrie.DescendIsLongestMatch | src/lib.rs:228-232 | a prefix of the tokens is a path exactly when it is no longer than the descent |
| CommandTrie.DescendStopsAt | src/lib.rs:228-242 | a reached node whose next token is not a child is exactly where the descent stops |
| CommandTrie.Invocation | src/lib.rs:233-240 | the exec call of a node: one call, with the given argv, exactly when the node has a handler |
| CommandTrie.ExecOn | src/lib.rs:220-223 | what `exec` does to a line: the handler of the node where the descent over the line's tokens stops, called with all the tokens; an all-whitespace line calls the root handler with no arguments |
| CommandTrie.ExecFrom | src/lib.rs:228-242 | `_exec` calls the handler of the node where the descent stops, if it has one, with the argv unchanged |
| CommandTrie.ExecOnTokens | src/lib.rs:220-242 | a line of tokens whose descent stops at `m` calls `m`'s handler with all the tokens |
| CommandTrie.ExecHandled | src/lib.rs:220-242 | a handled path followed by arguments that do not continue it calls that handler with path and arguments together |
| CommandTrie.ExecRegisteredPath | src/lib.rs:220-242 | executing a registered path calls its handler with the path's tokens |
| CommandTrie.DynamicSuggestions | src/lib.rs:189-206 | the dynamic-complete callback's result for the unconsumed tokens, or for `[""]` when none are left; empty unless the node's handler has such a callback |
| CommandTrie.StaticSuggestions | src/lib.rs:196-207 | the child keys offered: all of them when no token is left, else those starting with the unmatched token; always keys of the node, and a token that is itself a key is offered |
| CommandTrie.KeysStartingWith | src/lib.rs:197-198 | the filter over `commands.keys()` lists each key starting with the prefix exactly once, and no other |
| CommandTrie.CompleteFrom | src/lib.rs:182-210 | `_complete`: the dynamic results of the stopping node for the unmatched token and the rest (or for `[""]` when none is left), then its child keys starting with that token (or all of them) |
| CommandTrie.EnumeratesCount | src/lib.rs:197-198 | a list of distinct keys naming each key of a set has as many entries as the set |
| CommandTrie.EnumeratesOne | src/lib.rs:197-198 | a list of the keys of a one-key set is that key alone |
| CommandTrie.Cli.constructor | src/lib.rs:80-85 | `Cli::new` makes a node with no children and no handler, and no calls have been made |
| CommandTrie.Cli.Register | src/lib.rs:101-112 | the new root and result are `RegisterOn` of the old root; Ok exactly when the path is non-empty; the empty path sets the root handler |
| CommandTrie.Cli.RegisterDynComplete | src/lib.rs:127-138 | as `register`, with a handler that has a dynamic-complete callback |
| CommandTrie.Cli.Attach | src/lib.rs:140-159 | `_register` from the root, then the root handler on failure |
| CommandTrie.Cli.Complete | src/lib.rs:173-180 | `complete` returns a completion result for the line's tokens, never fails, and changes nothing |
| CommandTrie.Cli.Exec | src/lib.rs:220-224 | `exec` appends exactly the one invocation the line causes, if any; the trie is unchanged |
| KeyDecoder.ArrowKey | src/lib.rs:305-321 | the byte after `ESC [`: A, B, C, D give Up, Down, Right, Left; exactly those four give a key, and it is an arrow |
| KeyDecoder.ByteKey | src/lib.rs:330-357 | the table of one-byte keys: digits, letters, space, Del, Tab, Backspace, Enter, Ctrl-C, and Symbol for the rest; a Digit exactly for 0-9, a Char exactly for ASCII letters, a Symbol exactly for the other bytes |
| KeyDecoder.EscapeKey | src/lib.rs:302-329 | after an escape byte at least one byte is consumed |
| KeyDecoder.ReadKey | src/lib.rs:300-361 | `read_key` never grows the input, and a key consumes at least one byte |
| KeyDecoder.ReadKeyConsumes | src/lib.rs:300-361 | the rest is a suffix of the input; there is no key exactly at end of stream and at an escape that does not start an arrow |
| KeyDecoder.ByteKeySound | src/lib.rs:330-357 | every byte but ESC decodes to a producible key whose encoding is that byte |
| KeyDecoder.ReadKeySound | src/lib.rs:300-361 | a decoded key is producible and the input is its encoding followed by the rest |
| KeyDecoder.ReadKeyEncode | src/lib.rs:300-361 | decoding the encoding of any producible key gives the key back and leaves what follows |
| LineSession.Step | src/lib.rs:380-419 | one arm of the loop's match on a key: letters and space are appended, Del and Backspace drop the last character, Tab completes and Enter executes the buffer, Etx and no key stop, anything else changes nothing; it stops exactly on Etx or no key, requests are for the current buffer, Enter clears it, and otherwise the buffer loses a suffix or gains one character |
| LineSession.Requests | src/lib.rs:377-424 | the completion and execution requests of the loop over the input, until Etx or no key; at most one per byte read |
| LineSession.Run | src/lib.rs:377-424 | the loop leaves the trie unchanged and makes exactly the exec invocations of the session's requests, in order |
| LineSession.Turn | src/lib.rs:380-419 | one key edits the buffer as `Step` says, stops on Ctrl-C, and appends the invocation of an Enter |
| LineSession.Advance | src/lib.rs:377-424 | reading one key either ends the requests or adds the key's request before those of the rest |
| LineSession.RequestedLinesAreLetters | src/lib.rs:380-419 | every line a session completes or executes holds only letters and spaces |
| LineSession.StepKeepsLetters | src/lib.rs:380-419 | a decodable key keeps a buffer of letters and spaces so |
| LineSession.RequestsAfterKey | src/lib.rs:378-424 | after a key, the requests are the key's own request, then those of the new buffer on the rest; none after a stop |
| LineSession.TypeOne | src/lib.rs:381-390 | typing a letter or a space appends it to the buffer and requests nothing |
| LineSession.TypingAppends | src/lib.rs:381-390 | typing a line of letters and spaces appends it to the buffer and requests nothing |
| LineSession.EnterExecutes | src/lib.rs:405-411 | Enter requests execution of the buffer and clears it |
| LineSession.TabCompletes | src/lib.rs:396-404 | Tab requests completion of the buffer and keeps it |
| LineSession.BackspaceUndoes | src/lib.rs:391-395 | Backspace right after a typed letter or space removes it |
| LineSession.DelUndoes | src/lib.rs:391-395 | Del right after a typed letter or space removes it |
| LineSession.DeleteOnEmpty | src/lib.rs:391-395 | Del or Backspace on an empty line leaves it empty and requests nothing |
| LineSession.ArrowIgnored | src/lib.rs:416-418 | an arrow key is consumed and changes nothing |
| LineSession.UnhandledByteIgnored | src/lib.rs:416-418 | a digit or symbol byte is consumed and changes nothing |
| LineSession.EtxStops | src/lib.rs:412-415 | Ctrl-C ends the session: no request follows it |
| LineSession.TypedLineExecutes | src/lib.rs:381-411 | typing a line and Enter makes one request, to execute that line |
| LineSession.TypedCommandExecutes | src/lib.rs:381-411 | typing a registered command of letters and Enter calls its handler exactly once, with its tokens |
| Scenarios.RegisterOne | src/lib.rs:140-159 | registering one token on a new `Cli` makes one child holding the handler |
| Scenarios.RegisterTwo | src/lib.rs:140-159 | registering two tokens on a new `Cli` makes a chain of two children, the last holding the handler |
| Scenarios.RegisterSibling | src/lib.rs:94-98 | a second path under the same first token adds a sibling and keeps the first path |
| Scenarios.ExecRegisteredLine | src/lib.rs:435-443 | any line whose tokens are a registered path calls its handler with those tokens |
| Scenarios.RegisterAndExecute | src/lib.rs:435-443 | register then exec: one call, with the path |
| Scenarios.ExecTwice | src/lib.rs:446-455 | executing a line twice makes its invocation twice |
| Scenarios.RegisterAndExecuteTwice | src/lib.rs:446-455 | register, then exec twice: two identical calls |
| Scenarios.ExecuteWithArguments | src/lib.rs:488-499 | the handler of a command receives the command and all its arguments |
| Scenarios.CompletesAtRoot | src/lib.rs:461-463 | at a root with one child, nothing or a proper prefix completes to that child |
| Scenarios.CompletesAtLeaf | src/lib.rs:465-475 | at a leaf, the result is only its dynamic suggestions, for the arguments or `[""]` |
| Scenarios.CompletesAtMiddle | src/lib.rs:482-484 | one level down a chain, nothing or a proper prefix completes to the next token |
| Scenarios.CompleteSingleCommand | src/lib.rs:458-466 | `""`, `f` and `  f` complete to `foo`; `foo` completes to nothing; `f` followed by spaces still completes to `foo` |
| Scenarios.CompleteWithDynamic | src/lib.rs:469-476 | `f` completes to `foo`; `foo` with arguments gives the callback's result for the arguments |
| Scenarios.CompleteMultiCommand | src/lib.rs:479-485 | `f` completes to `foo`; `foo` and `foo b` complete to `bar` |
| Scenarios.CompleteSharedPrefix | src/lib.rs:94-98 | after `foo bar` and `foo baz`, `foo` completes to both second tokens in some order |

## Left out

- Terminal set-up (`termios`), echo and all printing are left out. This includes the suggestions printed after Tab. `Run` calls `complete`, which changes nothing, and discards the result.
- Read errors from standard input are left out. The input is a finite byte sequence, and its end is "no key".
- KeyDecoder.EscapeKey: the source panics (`unwrap`) when ESC is followed by the end of the stream or a read error, and when `ESC [` is followed by the end of the stream or a read error. The model treats them as "no key", so the loop stops there as it would for any other unknown escape.
- Exec callbacks are recorded as `Call(id, argv)`. Their effects and their own state (`FnMut`) are not modelled.
- Dynamic-complete callbacks are one fixed function of the handler id and the arguments. Callback state that changes between calls is not modelled.
- The `Command.command` field is stored but never read by the source, so it is not modelled.
- The `Rc`/`RefCell` sharing of one `Command` is left out. The sharing is never observable, because the handler is placed at one node only.
- The order of `HashMap::keys()` is unspecified. Completion results list each offered key exactly once in some order (`Enumerates`), and the method takes keys in an arbitrary order.
- The trie is a value that `register` replaces as a whole. In-place mutation of nested maps is not modelled; it is not observable through the API.
- The `Err` branch of `complete` is dead code, because `_complete` always returns `Ok`. The model returns the result directly.
- `cline_run` on Windows (which panics) and the demo program src/main.rs are not part of this model.

Where the code and its prose description differ, the model follows the code:

- When the tokens run out, completion returns the dynamic results for `[""]` and ALSO every child key.
- Digit, symbol and arrow keys are not appended to the line; they take the "unhandled" arm.
- Registering the empty path both fails and installs the handler at the root.
- Whitespace at the end of a line is trimmed before completion. The crate's test keeps a disabled assertion expecting `[""]` for `f` followed by spaces; the model, like the code, gives the same result as for `f` (`Scenarios.CompleteSingleCommand`).
