/**
 The line-editing loop of `unix_cline_run`: keys from `read_key` edit a line
 buffer; Tab asks the trie for completions of the buffer, Enter executes the
 buffer and clears it, Ctrl-C or the lack of a key ends the session. Terminal
 set-up and all echo and printing are outside this model.
 */
module LineSession {
  import opened Wrappers
  import opened Tokens
  import opened CommandTrie
  import opened KeyDecoder

  /** What one key asks of the session besides editing the buffer. */
  datatype Action = Continue | CompleteLine(line: string) | ExecLine(line: string) | Stop

  /**
   One turn of the loop: the new buffer and the request the key makes.
   Letters and the space are appended, Del and Backspace drop the last
   character (if any), Tab completes and Enter executes the buffer, Etx and
   a missing key stop; digits, symbols and arrows are not handled and change
   nothing.
   */
  function Step(buffer: string, key: Option<Key>): (r: (string, Action))
    ensures r.1 == Stop <==> key.None? || key.value.Etx?
    ensures (r.1.CompleteLine? || r.1.ExecLine?) ==> r.1.line == buffer
    ensures r.1.ExecLine? ==> r.0 == []
    ensures !r.1.ExecLine? ==> r.0 <= buffer || (|r.0| == |buffer| + 1 && buffer <= r.0)
  {
    match key
    case None => (buffer, Stop)
    case Some(k) =>
      match k
      case Char(c) => (buffer + [c], Continue)
      case Whitespace => (buffer + [' '], Continue)
      case Del | Backspace => (if buffer == [] then buffer else buffer[..|buffer| - 1], Continue)
      case Tab => (buffer, CompleteLine(buffer))
      case Newline => ([], ExecLine(buffer))
      case Etx => (buffer, Stop)
      case _ => (buffer, Continue)
  }

  /** The completion and execution requests a session makes from `buffer` on, reading `input`. */
  function Requests(buffer: string, input: seq<Byte>): (r: seq<Action>)
    ensures |r| <= |input|
    decreases |input|
  {
    var (key, rest) := ReadKey(input);
    var (buffer', action) := Step(buffer, key);
    if action == Stop then [] else Request(action) + Requests(buffer', rest)
  }

  /** The request an action records: the line to complete or execute, if any. */
  function Request(a: Action): seq<Action>
  {
    if a.CompleteLine? || a.ExecLine? then [a] else []
  }

  /** The exec invocation, if any, that one request causes on the trie `n`. */
  function CallsOf(n: Node, a: Action): seq<Call>
  {
    match a
    case ExecLine(line) => (match ExecOn(n, line) case None => [] case Some(c) => [c])
    case _ => []
  }

  /** The exec invocations that a sequence of requests causes on the trie `n`. */
  function ExecTrace(n: Node, requests: seq<Action>): seq<Call>
  {
    if requests == [] then [] else ExecTrace(n, requests[..|requests| - 1]) + CallsOf(n, requests[|requests| - 1])
  }

  /**
   `unix_cline_run` without the terminal: reads keys from `input` until Etx
   or no key, editing the line buffer; Tab completes the buffer and Enter
   executes it and clears it. The trie is unchanged, and the exec invocations
   are those of the session's requests, in order.
   */
  method Run(cli: Cli, input: seq<Byte>, dyn: DynComplete)
    modifies cli
    ensures cli.root == old(cli.root)
    ensures cli.calls == old(cli.calls) + ExecTrace(cli.root, Requests([], input))
  {
    var command: string := [];
    var bytes := input;
    ghost var done: seq<Action> := [];
    while true
      invariant Requests([], input) == done + Requests(command, bytes)
      invariant cli.root == old(cli.root)
      invariant cli.calls == old(cli.calls) + ExecTrace(cli.root, done)
      decreases |bytes|
    {
      var (key, rest) := ReadKey(bytes);
      Advance(cli.root, input, done, command, bytes);
      if key.None? {
        break;
      }
      ghost var action := Step(command, key).1;
      var stop;
      command, stop := Turn(cli, command, key.value, dyn);
      if stop {
        break;
      }
      if action.ExecLine? {
        AppendAssoc(old(cli.calls), ExecTrace(cli.root, done), CallsOf(cli.root, action));
      }
      done := done + Request(action);
      bytes := rest;
    }
  }

  /** One turn of the loop on the key `k`: edits the buffer, and completes or executes it. */
  method Turn(cli: Cli, command: string, k: Key, dyn: DynComplete) returns (command': string, stop: bool)
    modifies cli`calls
    ensures var (next, action) := Step(command, Some(k));
      command' == next && (stop <==> action == Stop) &&
      cli.calls == if action.ExecLine? then old(cli.calls) + CallsOf(cli.root, action) else old(cli.calls)
  {
    command', stop := command, false;
    match k {
      case Char(c) =>
        command' := command + [c];
      case Whitespace =>
        command' := command + [' '];
      case Del | Backspace =>
        if command != [] {
          command' := command[..|command| - 1];
        }
      case Tab =>
        var suggestions := cli.Complete(command, dyn);
      case Newline =>
        cli.Exec(command);
        command' := [];
      case Etx =>
        stop := true;
      case _ =>
    }
  }

  /**
   What one turn adds: reading the next key from `bytes`, the session either
   stops, its requests being those made so far, or records the key's request
   and goes on from the new buffer and the rest of the input.
   */
  lemma Advance(n: Node, input: seq<Byte>, done: seq<Action>, command: string, bytes: seq<Byte>)
    requires Requests([], input) == done + Requests(command, bytes)
    ensures var (key, rest) := ReadKey(bytes);
      var (next, a) := Step(command, key);
      if a == Stop then ExecTrace(n, Requests([], input)) == ExecTrace(n, done)
      else (Requests([], input) == (done + Request(a)) + Requests(next, rest) &&
            ExecTrace(n, done + Request(a)) ==
              if a.ExecLine? then ExecTrace(n, done) + CallsOf(n, a) else ExecTrace(n, done))
  {
    var (key, rest) := ReadKey(bytes);
    var (next, a) := Step(command, key);
    if a == Stop {
      assert done + [] == done;
    } else {
      AppendAssoc(done, Request(a), Requests(next, rest));
      if Request(a) == [] {
        assert done + [] == done;
      } else {
        assert (done + [a])[..|done|] == done;
      }
    }
  }

  // ---------------------------------------------------------------------------
  // Properties of the session

  /** Only ASCII letters and the space character. */
  predicate LettersAndSpaces(s: string)
  {
    forall i :: 0 <= i < |s| ==> s[i] == ' ' || (s[i] as int < 256 && IsLetterByte(s[i] as int))
  }

  /** The bytes that type `s`, one per character. */
  function Typed(s: string): seq<Byte>
    requires LettersAndSpaces(s)
  {
    if s == [] then [] else [s[0] as int] + Typed(s[1..])
  }

  /** A completion or execution request for a line of letters and spaces. */
  predicate LetterRequest(a: Action)
  {
    (a.CompleteLine? || a.ExecLine?) && LettersAndSpaces(a.line)
  }

  /**
   Every line a session asks to complete or execute consists of letters and
   spaces only: digits and symbols are dropped by the loop, so no command
   containing them can be typed.
   */
  lemma {:induction false} RequestedLinesAreLetters(buffer: string, input: seq<Byte>)
    requires LettersAndSpaces(buffer)
    ensures forall a :: a in Requests(buffer, input) ==> LetterRequest(a)
    decreases |input|
  {
    var (key, rest) := ReadKey(input);
    var (buffer', action) := Step(buffer, key);
    if action != Stop {
      ReadKeySound(input);
      StepKeepsLetters(buffer, key);
      RequestedLinesAreLetters(buffer', rest);
      assert Requests(buffer, input) == Request(action) + Requests(buffer', rest);
      assert Request(action) != [] ==> LetterRequest(action);
    }
  }

  lemma StepKeepsLetters(buffer: string, key: Option<Key>)
    requires LettersAndSpaces(buffer)
    requires key.Some? ==> ValidKey(key.value)
    ensures LettersAndSpaces(Step(buffer, key).0)
  {
    var b' := Step(buffer, key).0;
    if key.Some? && (key.value.Char? || key.value.Whitespace?) {
      assert forall i :: 0 <= i < |buffer| ==> b'[i] == buffer[i];
    }
  }

  /** The requests after a key are the key's own request, then those of the new buffer on the rest. */
  lemma RequestsAfterKey(buffer: string, k: Key, rest: seq<Byte>)
    requires ValidKey(k)
    ensures var (buffer', action) := Step(buffer, Some(k));
      Requests(buffer, Encode(k) + rest) ==
        if action == Stop then [] else Request(action) + Requests(buffer', rest)
  {
    ReadKeyEncode(k, rest);
  }

  lemma TypeOne(buffer: string, c: char, rest: seq<Byte>)
    requires LettersAndSpaces([c])
    ensures Requests(buffer, Typed([c]) + rest) == Requests(buffer + [c], rest)
  {
    assert [c][0] == c && [c][1..] == [];
    var k: Key := if c == ' ' then Whitespace else Char(c);
    assert ValidKey(k) && Encode(k) == Typed([c]);
    RequestsAfterKey(buffer, k, rest);
  }

  /** Typing the bytes of a line of letters and spaces appends it to the buffer and requests nothing. */
  lemma {:induction false} TypingAppends(buffer: string, s: string, rest: seq<Byte>)
    requires LettersAndSpaces(s)
    ensures Requests(buffer, Typed(s) + rest) == Requests(buffer + s, rest)
    decreases |s|
  {
    if s == [] {
      assert Typed(s) + rest == rest;
      assert buffer + s == buffer;
    } else {
      var tail := Typed(s[1..]) + rest;
      calc {
        Requests(buffer, Typed(s) + rest);
        { assert Typed(s) + rest == Typed([s[0]]) + tail; }
        Requests(buffer, Typed([s[0]]) + tail);
        { TypeOne(buffer, s[0], tail); }
        Requests(buffer + [s[0]], tail);
        { TypingAppends(buffer + [s[0]], s[1..], rest); }
        Requests(buffer + [s[0]] + s[1..], rest);
        { assert buffer + [s[0]] + s[1..] == buffer + s; }
        Requests(buffer + s, rest);
      }
    }
  }

  /** Enter executes the buffer, clears it, and the session goes on. */
  lemma EnterExecutes(buffer: string, rest: seq<Byte>)
    ensures Requests(buffer, [0x0A] + rest) == [ExecLine(buffer)] + Requests([], rest)
  {
    RequestsAfterKey(buffer, Newline, rest);
  }

  /** Tab completes the buffer and leaves it as it was. */
  lemma TabCompletes(buffer: string, rest: seq<Byte>)
    ensures Requests(buffer, [0x09] + rest) == [CompleteLine(buffer)] + Requests(buffer, rest)
  {
    RequestsAfterKey(buffer, Tab, rest);
  }

  /** Backspace right after typing a letter or a space undoes it. */
  lemma BackspaceUndoes(buffer: string, c: char, rest: seq<Byte>)
    requires LettersAndSpaces([c])
    ensures Requests(buffer, Typed([c]) + [0x08] + rest) == Requests(buffer, rest)
  {
    assert Typed([c]) + [0x08] + rest == Typed([c]) + ([0x08] + rest);
    TypeOne(buffer, c, [0x08] + rest);
    RequestsAfterKey(buffer + [c], Backspace, rest);
    assert (buffer + [c])[..|buffer + [c]| - 1] == buffer;
  }

  /** Del right after a typed letter or space removes it, as Backspace does. */
  lemma DelUndoes(buffer: string, c: char, rest: seq<Byte>)
    requires LettersAndSpaces([c])
    ensures Requests(buffer, Typed([c]) + [0x7F] + rest) == Requests(buffer, rest)
  {
    assert Typed([c]) + [0x7F] + rest == Typed([c]) + ([0x7F] + rest);
    TypeOne(buffer, c, [0x7F] + rest);
    RequestsAfterKey(buffer + [c], Del, rest);
    assert (buffer + [c])[..|buffer + [c]| - 1] == buffer;
  }

  /** Del or Backspace on an empty line leaves it empty. */
  lemma DeleteOnEmpty(b: Byte, rest: seq<Byte>)
    requires b == 0x7F || b == 0x08
    ensures Requests([], [b] + rest) == Requests([], rest)
  {
    assert ([b] + rest)[1..] == rest;
  }

  /** An arrow key is consumed and changes nothing: the loop does not handle it. */
  lemma ArrowIgnored(buffer: string, d: Direction, rest: seq<Byte>)
    ensures Requests(buffer, Encode(Arrow(d)) + rest) == Requests(buffer, rest)
  {
    RequestsAfterKey(buffer, Arrow(d), rest);
  }

  /** A digit or a symbol byte is consumed and leaves the buffer unchanged. */
  lemma UnhandledByteIgnored(buffer: string, b: Byte, rest: seq<Byte>)
    requires IsDigitByte(b) || IsSymbolByte(b)
    ensures Requests(buffer, [b] + rest) == Requests(buffer, rest)
  {
    assert ([b] + rest)[1..] == rest;
  }

  /** Ctrl-C ends the session: nothing after it is read. */
  lemma EtxStops(buffer: string, rest: seq<Byte>)
    ensures Requests(buffer, [0x03] + rest) == []
  {
  }

  lemma {:induction false} JoinLettersAndSpaces(p: seq<string>)
    requires forall i :: 0 <= i < |p| ==> LettersAndSpaces(p[i])
    ensures LettersAndSpaces(Join(p))
  {
    if |p| > 1 {
      JoinLettersAndSpaces(p[1..]);
    }
  }

  /**
   Typing a registered command of letters at the prompt and pressing Enter
   invokes the handler registered at it exactly once, with the command's tokens.
   */
  lemma {:induction false} TypedCommandExecutes(n: Node, path: seq<string>, h: Handler)
    requires path != []
    requires forall i :: 0 <= i < |path| ==> IsToken(path[i]) && LettersAndSpaces(path[i])
    ensures var line := Join(path);
      LettersAndSpaces(line) &&
      ExecTrace(RegisterOn(n, path, h).0, Requests([], Typed(line) + [0x0A])) == [Call(h.id, path)]
  {
    var line := Join(path);
    var n' := RegisterOn(n, path, h).0;
    JoinLettersAndSpaces(path);
    TypedLineExecutes(line);
    ExecTraceOne(n', ExecLine(line));
    ExecRegisteredPath(n, path, h);
  }

  /** Typing a line of letters and spaces and pressing Enter requests its execution, and nothing else. */
  lemma TypedLineExecutes(line: string)
    requires LettersAndSpaces(line)
    ensures Requests([], Typed(line) + [0x0A]) == [ExecLine(line)]
  {
    TypingAppends([], line, [0x0A]);
    assert [] + line == line;
    assert [0x0A] == [0x0A] + [];
    EnterExecutes(line, []);
    assert Requests([], []) == [];
    assert [ExecLine(line)] + [] == [ExecLine(line)];
  }

  lemma ExecTraceOne(n: Node, a: Action)
    ensures ExecTrace(n, [a]) == CallsOf(n, a)
  {
    assert [a][..0] == [];
  }
}
