/**
 The unit tests of the crate, replayed on the model for any command names
 and arguments: each method drives a fresh `Cli` the way a test does, and its
 postcondition is what the test asserts.
 */
module Scenarios {
  import opened Wrappers
  import opened Tokens
  import opened CommandTrie

  /** The node a registration creates for the last token of its path. */
  function Leaf(h: Handler): Node
  {
    Node(map[], Some(h))
  }

  /** Registering one token on a fresh `Cli` makes one child that holds the handler. */
  lemma RegisterOne(c: string, h: Handler)
    ensures RegisterOn(Empty, [c], h) == (Node(map[c := Leaf(h)], None), Ok)
  {
    assert [c][1..] == [];
  }

  /** Registering two tokens on a fresh `Cli` makes a chain of two children; the last holds the handler. */
  lemma RegisterTwo(c1: string, c2: string, h: Handler)
    ensures RegisterOn(Empty, [c1, c2], h) == (Node(map[c1 := Node(map[c2 := Leaf(h)], None)], None), Ok)
  {
    assert [c1, c2][0] == c1 && [c1, c2][1..] == [c2];
    RegisterOne(c2, h);
  }

  /** The tokens of a command followed by arguments, written with single spaces. */
  lemma CommandLineTokens(c: string, args: seq<string>)
    requires IsToken(c) && forall i :: 0 <= i < |args| ==> IsToken(args[i])
    ensures SplitWhitespace(Join([c] + args)) == [c] + args
  {
    TokensAppend([c], args);
    JoinRoundTrip([c] + args);
  }

  /** A line whose tokens are a registered path calls that path's handler with them. */
  lemma ExecRegisteredLine(path: seq<string>, h: Handler, line: string)
    requires path != [] && SplitWhitespace(line) == path
    ensures ExecOn(RegisterOn(Empty, path, h).0, line) == Some(Call(h.id, path))
  {
    var n := RegisterOn(Empty, path, h).0;
    RegisterEffect(Empty, path, h, path);
    var m := Lookup(n, path).value;
    assert path[..|path|] == path;
    DescendStopsAt(n, path, |path|, m);
  }

  /** `test_register_and_execute`: executing a line of the registered path calls its handler with the path. */
  method RegisterAndExecute(path: seq<string>, id: HandlerId, line: string) returns (calls: seq<Call>)
    requires path != [] && SplitWhitespace(line) == path
    ensures calls == [Call(id, path)]
  {
    var cli := new Cli();
    var res := cli.Register(path, id);
    ExecRegisteredLine(path, Handler(id, false), line);
    cli.Exec(line);
    calls := cli.calls;
  }

  /** `test_register_and_execute_multiple_times`: each execution is one more call. */
  method RegisterAndExecuteTwice(path: seq<string>, id: HandlerId, line: string) returns (calls: seq<Call>)
    requires path != [] && SplitWhitespace(line) == path
    ensures calls == [Call(id, path), Call(id, path)]
  {
    var cli := new Cli();
    var res := cli.Register(path, id);
    ExecRegisteredLine(path, Handler(id, false), line);
    ExecTwice(cli, line, Call(id, path));
    calls := cli.calls;
  }

  /** Executing the same line twice makes its invocation twice. */
  method ExecTwice(cli: Cli, line: string, c: Call)
    requires ExecOn(cli.root, line) == Some(c)
    modifies cli`calls
    ensures cli.calls == old(cli.calls) + [c, c]
  {
    cli.Exec(line);
    cli.Exec(line);
  }

  /** `test_register_and_execute_with_arguments`: the handler receives the command and its arguments. */
  method ExecuteWithArguments(c: string, args: seq<string>, id: HandlerId) returns (calls: seq<Call>)
    requires IsToken(c) && forall i :: 0 <= i < |args| ==> IsToken(args[i])
    ensures calls == [Call(id, [c] + args)]
  {
    var cli := new Cli();
    var res := cli.Register([c], id);
    RegisterOne(c, Handler(id, false));
    assert HandlerAt(cli.root, [c]) == Some(Handler(id, false)) by {
      LookupCons(cli.root, c, []);
      assert [c] + [] == [c];
    }
    ExecHandled(cli.root, [c], args, Handler(id, false));
    cli.Exec(Join([c] + args));
    calls := cli.calls;
  }

  /** At the root of a trie with one child `c`, nothing or a proper prefix of `c` completes to `c`. */
  lemma CompletesAtRoot(r: seq<string>, c: string, m: Node, toks: seq<string>, dyn: DynComplete)
    requires toks == [] || (|toks| == 1 && toks[0] < c)
    requires Completes(r, Node(map[c := m], None), toks, dyn)
    ensures r == [c]
  {
    var n := Node(map[c := m], None);
    assert Descend(n, toks) == (n, 0);
    assert toks[0..] == toks;
    assert StaticSuggestions(n, toks) == {c};
    assert r[0..] == r;
    EnumeratesOne(r, c);
  }

  /** Below the root of a trie with one leaf `c`: only the leaf's dynamic suggestions, for the arguments or `[""]`. */
  lemma CompletesAtLeaf(r: seq<string>, c: string, h: Handler, args: seq<string>, dyn: DynComplete)
    requires Completes(r, Node(map[c := Leaf(h)], None), [c] + args, dyn)
    ensures r == if h.dynamicComplete then dyn(h.id, if args == [] then [""] else args) else []
  {
    var n := Node(map[c := Leaf(h)], None);
    var toks := [c] + args;
    assert toks[0] == c && toks[1..] == args;
    assert Descend(Leaf(h), args) == (Leaf(h), 0);
    assert Descend(n, toks) == (Leaf(h), 1);
    assert StaticSuggestions(Leaf(h), args) == {};
    EnumeratesCount(r[|DynamicSuggestions(Leaf(h), args, dyn)|..], {});
  }

  /** One level down a chain `c1 c2`: nothing or a proper prefix of `c2` completes to `c2`. */
  lemma CompletesAtMiddle(r: seq<string>, c1: string, c2: string, h: Handler, rest: seq<string>, dyn: DynComplete)
    requires rest == [] || (|rest| == 1 && rest[0] < c2)
    requires Completes(r, Node(map[c1 := Node(map[c2 := Leaf(h)], None)], None), [c1] + rest, dyn)
    ensures r == [c2]
  {
    var m := Node(map[c2 := Leaf(h)], None);
    var toks := [c1] + rest;
    assert toks[0] == c1 && toks[1..] == rest;
    assert Descend(m, rest) == (m, 0);
    assert rest[0..] == rest;
    assert toks[1..] == rest;
    assert StaticSuggestions(m, rest) == {c2};
    assert r[0..] == r;
    EnumeratesOne(r, c2);
  }

  /**
   `test_complete_empty_single_cmd`, with `c` for `foo` and `p` for `f`: the
   empty line, a proper prefix and the prefix after leading whitespace complete
   to `c`; `c` itself has nothing to complete. Whitespace after the prefix is
   trimmed away too, so it still completes to `c`; the test keeps a disabled
   assertion that expects `[""]` there instead.
   */
  method CompleteSingleCommand(c: string, p: string, w: string, id: HandlerId, dyn: DynComplete)
    returns (empty: seq<string>, prefix: seq<string>, indented: seq<string>, exact: seq<string>, trailing: seq<string>)
    requires IsToken(c) && IsToken(p) && p < c && AllWhitespace(w)
    ensures empty == [c] && prefix == [c] && indented == [c] && exact == [] && trailing == [c]
  {
    var cli := new Cli();
    var res := cli.Register([c], id);
    RegisterOne(c, Handler(id, false));
    empty := cli.Complete([], dyn);
    CompletesAtRoot(empty, c, Leaf(Handler(id, false)), [], dyn);
    prefix := cli.Complete(p, dyn);
    SplitOfToken(p);
    CompletesAtRoot(prefix, c, Leaf(Handler(id, false)), [p], dyn);
    indented := cli.Complete(w + p, dyn);
    SplitEmptyIff(w);
    SplitAppend(w, p);
    CompletesAtRoot(indented, c, Leaf(Handler(id, false)), [p], dyn);
    exact := cli.Complete(c, dyn);
    SplitOfToken(c);
    assert [c] + [] == [c];
    CompletesAtLeaf(exact, c, Handler(id, false), [], dyn);
    trailing := cli.Complete(p + w, dyn);
    SplitAppend(p, w);
    assert [p] + [] == [p];
    CompletesAtRoot(trailing, c, Leaf(Handler(id, false)), [p], dyn);
  }

  /**
   `test_complete_with_dynamic`: a proper prefix completes to the command; the
   command with arguments gives what the dynamic-complete callback returns for
   the arguments, and the bare command what it returns for `[""]`.
   */
  method CompleteWithDynamic(c: string, p: string, args: seq<string>, id: HandlerId, dyn: DynComplete)
    returns (a: seq<string>, b: seq<string>)
    requires IsToken(c) && IsToken(p) && p < c
    requires forall i :: 0 <= i < |args| ==> IsToken(args[i])
    ensures a == [c]
    ensures b == dyn(id, if args == [] then [""] else args)
  {
    var cli := new Cli();
    var res := cli.RegisterDynComplete([c], id);
    RegisterOne(c, Handler(id, true));
    a := cli.Complete(p, dyn);
    SplitOfToken(p);
    CompletesAtRoot(a, c, Leaf(Handler(id, true)), [p], dyn);
    b := cli.Complete(Join([c] + args), dyn);
    CommandLineTokens(c, args);
    CompletesAtLeaf(b, c, Handler(id, true), args, dyn);
  }

  /**
   `test_complete_multi_cmd`, with `c1 c2` for `foo bar`: a proper prefix of
   `c1` completes to `c1`; `c1`, alone or before a proper prefix of `c2`,
   completes to `c2`.
   */
  method CompleteMultiCommand(c1: string, c2: string, p1: string, p2: string, id: HandlerId, dyn: DynComplete)
    returns (a: seq<string>, b: seq<string>, e: seq<string>)
    requires IsToken(c1) && IsToken(c2) && IsToken(p1) && IsToken(p2) && p1 < c1 && p2 < c2
    ensures a == [c1] && b == [c2] && e == [c2]
  {
    var cli := new Cli();
    var res := cli.Register([c1, c2], id);
    RegisterTwo(c1, c2, Handler(id, false));
    a := cli.Complete(p1, dyn);
    SplitOfToken(p1);
    CompletesAtRoot(a, c1, Node(map[c2 := Leaf(Handler(id, false))], None), [p1], dyn);
    b := cli.Complete(c1, dyn);
    SplitOfToken(c1);
    assert [c1] + [] == [c1];
    CompletesAtMiddle(b, c1, c2, Handler(id, false), [], dyn);
    e := cli.Complete(Join([c1, p2]), dyn);
    CommandLineTokens(c1, [p2]);
    CompletesAtMiddle(e, c1, c2, Handler(id, false), [p2], dyn);
  }

  /** A second path under the same first token adds a sibling and keeps the first path. */
  lemma RegisterSibling(c1: string, c2: string, c3: string, h1: Handler, h2: Handler)
    requires c2 != c3
    ensures RegisterOn(RegisterOn(Empty, [c1, c2], h1).0, [c1, c3], h2).0
         == Node(map[c1 := Node(map[c2 := Leaf(h1), c3 := Leaf(h2)], None)], None)
  {
    RegisterTwo(c1, c2, h1);
    var m := Node(map[c2 := Leaf(h1)], None);
    assert [c1, c3][0] == c1 && [c1, c3][1..] == [c3];
    assert [c3][0] == c3 && [c3][1..] == [];
    assert RegisterFrom(m, [c3], h2).0 == Node(map[c2 := Leaf(h1), c3 := Leaf(h2)], None);
  }

  /**
   The example of `Cli::register`, with `c1 c2` and `c1 c3` for `foo bar` and
   `foo baz`: `c1` completes to both second tokens, in some order.
   */
  method CompleteSharedPrefix(c1: string, c2: string, c3: string, id1: HandlerId, id2: HandlerId, dyn: DynComplete)
    returns (r: seq<string>)
    requires IsToken(c1) && c2 != c3
    ensures r == [c2, c3] || r == [c3, c2]
  {
    var cli := new Cli();
    var res := cli.Register([c1, c2], id1);
    res := cli.Register([c1, c3], id2);
    RegisterSibling(c1, c2, c3, Handler(id1, false), Handler(id2, false));
    r := cli.Complete(c1, dyn);
    SplitOfToken(c1);
    var m := Node(map[c2 := Leaf(Handler(id1, false)), c3 := Leaf(Handler(id2, false))], None);
    assert [c1][1..] == [];
    assert Descend(m, []) == (m, 0);
    assert Descend(cli.root, [c1]) == (m, 1);
    assert StaticSuggestions(m, []) == {c2, c3};
    assert r[0..] == r;
    EnumeratesTwo(r, c2, c3);
  }

  lemma EnumeratesTwo(ks: seq<string>, x: string, y: string)
    requires x != y && Enumerates(ks, {x, y})
    ensures ks == [x, y] || ks == [y, x]
  {
    EnumeratesCount(ks, {x, y});
    assert ks[0] in {x, y} && ks[1] in {x, y};
  }
}
