/**
 The command trie behind `Cli` in src/lib.rs: every node maps tokens to child
 nodes and may hold the handler registered at the path that leads to it.
 Registration, completion and execution all walk the trie one token at a time.

 The callbacks of a handler are abstracted: an exec callback is known by its
 `HandlerId` and each invocation is recorded as a `Call`; a dynamic-complete
 callback is a function `DynComplete` of the handler id and its arguments.
 */
module CommandTrie {
  import opened Wrappers
  import opened Tokens

  type HandlerId = nat

  /** The `Command` a node holds: its exec callback, and whether a dynamic-complete callback came with it. */
  datatype Handler = Handler(id: HandlerId, dynamicComplete: bool)

  /** A `Cli` value: the `commands` map of children and the optional `handler`. */
  datatype Node = Node(children: map<string, Node>, handler: Option<Handler>)

  /** `Result<(), ()>` of the registration functions. */
  datatype Status = Ok | Err

  /** One invocation of an exec callback with its argument vector. */
  datatype Call = Call(handler: HandlerId, argv: seq<string>)

  /** The dynamic-complete callbacks, by the id of the handler they belong to. */
  type DynComplete = (HandlerId, seq<string>) -> seq<string>

  /** `Cli::new`: no children and no handler. */
  const Empty := Node(map[], None)

  // ---------------------------------------------------------------------------
  // Paths

  /** The node reached by following `path` from `n`, if every token names a child. */
  function Lookup(n: Node, path: seq<string>): Option<Node>
    decreases |path|
  {
    if path == [] then Some(n)
    else if path[0] in n.children then Lookup(n.children[path[0]], path[1..])
    else None
  }

  /** The handler of the node at `path`; None when there is no such node. */
  function HandlerAt(n: Node, path: seq<string>): Option<Handler>
  {
    match Lookup(n, path)
    case None => None
    case Some(m) => m.handler
  }

  lemma {:induction false} LookupAppend(n: Node, p: seq<string>, q: seq<string>)
    ensures Lookup(n, p + q) == match Lookup(n, p) case None => None case Some(m) => Lookup(m, q)
    decreases |p|
  {
    if p == [] {
      assert p + q == q;
    } else {
      assert (p + q)[0] == p[0] && (p + q)[1..] == p[1..] + q;
      if p[0] in n.children {
        LookupAppend(n.children[p[0]], p[1..], q);
      }
    }
  }

  lemma LookupEmpty(q: seq<string>)
    ensures Lookup(Empty, q).Some? <==> q == []
    ensures HandlerAt(Empty, q) == None
  {
  }

  lemma LookupSetHandler(m: Node, x: Option<Handler>, q: seq<string>)
    ensures Lookup(m.(handler := x), q).Some? <==> Lookup(m, q).Some?
    ensures HandlerAt(m.(handler := x), q) == if q == [] then x else HandlerAt(m, q)
  {
  }

  // ---------------------------------------------------------------------------
  // Registration

  /**
   `Cli::_register`: consumes one token, creating the child for it when it is
   missing, and recurses; a child whose recursive call fails (no tokens left)
   takes the handler. Fails, leaving the node alone, when there is no token.
   */
  function RegisterFrom(n: Node, path: seq<string>, h: Handler): (r: (Node, Status))
    ensures r.1 == Ok <==> path != []
    ensures path == [] ==> r.0 == n
    decreases |path|
  {
    if path == [] then (n, Err)
    else
      var portion := path[0];
      var child := if portion in n.children then n.children[portion] else Empty;
      var (child', res) := RegisterFrom(child, path[1..], h);
      var child'' := if res == Err then child'.(handler := Some(h)) else child';
      (n.(children := n.children[portion := child'']), Ok)
  }

  /**
   `Cli::register` and `Cli::register_dyn_complete`: `_register` from the root;
   when that fails (the empty path) the handler is installed at the root.
   */
  function RegisterOn(n: Node, path: seq<string>, h: Handler): (r: (Node, Status))
    ensures r.1 == Ok <==> path != []
    ensures path == [] ==> r.0 == n.(handler := Some(h))
  {
    var (n', res) := RegisterFrom(n, path, h);
    if res == Err then (n'.(handler := Some(h)), Err) else (n', Ok)
  }

  /**
   Seen at the path `q`, `after` is `before` with `h` attached at `path`: the
   prefixes of `path` are paths, `path` holds `h`, and nothing else differs.
   */
  predicate AttachedAt(before: Node, after: Node, path: seq<string>, h: Handler, q: seq<string>)
  {
    && (Lookup(after, q).Some? <==> Lookup(before, q).Some? || q <= path)
    && HandlerAt(after, q) == if q == path then Some(h) else HandlerAt(before, q)
  }

  /**
   What `_register` does to the paths and handlers of the trie: it adds the
   prefixes of `path` as paths, puts `h` at `path` and changes nothing else.
   */
  lemma {:induction false} RegisterFromAt(n: Node, path: seq<string>, h: Handler, q: seq<string>)
    requires path != []
    ensures AttachedAt(n, RegisterFrom(n, path, h).0, path, h, q)
    decreases |path|
  {
    var n' := RegisterFrom(n, path, h).0;
    var x := path[0];
    var child := if x in n.children then n.children[x] else Empty;
    var (child', res) := RegisterFrom(child, path[1..], h);
    var child'' := if res == Err then child'.(handler := Some(h)) else child';
    assert n' == n.(children := n.children[x := child'']);
    if q != [] && q[0] == x {
      assert Lookup(n', q) == Lookup(child'', q[1..]);
      assert q <= path <==> q[1..] <= path[1..];
      assert q == path <==> q[1..] == path[1..];
      assert Lookup(n, q) == if x in n.children then Lookup(child, q[1..]) else None;
      if x !in n.children {
        LookupEmpty(q[1..]);
      }
      if path[1..] == [] {
        LookupSetHandler(child, Some(h), q[1..]);
      } else {
        RegisterFromAt(child, path[1..], h, q[1..]);
      }
    }
  }

  /**
   Registration, as the caller sees it. The empty path fails and, as a side
   effect, installs the handler at the root. Any other path succeeds, makes
   every prefix of it a path, attaches the handler at its last node only
   (replacing what was there) and leaves every other path and handler alone.
   */
  lemma RegisterEffect(n: Node, path: seq<string>, h: Handler, q: seq<string>)
    ensures var (n', res) := RegisterOn(n, path, h);
      && (res == Ok <==> path != [])
      && (path == [] ==> n' == n.(handler := Some(h)))
      && (path != [] ==> AttachedAt(n, n', path, h, q))
  {
    if path != [] {
      RegisterFromAt(n, path, h, q);
    }
  }

  /** Registering the same path twice: the second handler wins and the trie is as if only it had been registered. */
  lemma {:induction false} RegisterFromTwice(n: Node, path: seq<string>, h1: Handler, h2: Handler)
    ensures RegisterFrom(RegisterFrom(n, path, h1).0, path, h2) == RegisterFrom(n, path, h2)
    decreases |path|
  {
    if path != [] {
      var x := path[0];
      var child := if x in n.children then n.children[x] else Empty;
      var c1 := RegisterFrom(child, path[1..], h1);
      var child1 := if c1.1 == Err then c1.0.(handler := Some(h1)) else c1.0;
      var n1 := RegisterFrom(n, path, h1).0;
      assert n1 == n.(children := n.children[x := child1]);
      var c2 := RegisterFrom(child, path[1..], h2);
      var child2 := if c2.1 == Err then c2.0.(handler := Some(h2)) else c2.0;
      assert RegisterFrom(n, path, h2).0 == n.(children := n.children[x := child2]);
      var d2 := RegisterFrom(child1, path[1..], h2);
      var child2' := if d2.1 == Err then d2.0.(handler := Some(h2)) else d2.0;
      assert RegisterFrom(n1, path, h2).0 == n1.(children := n1.children[x := child2']);
      if path[1..] != [] {
        RegisterFromTwice(child, path[1..], h1, h2);
      }
      assert child2' == child2;
      assert n1.children[x := child2] == n.children[x := child2];
    }
  }

  lemma LastRegistrationWins(n: Node, path: seq<string>, h1: Handler, h2: Handler)
    ensures RegisterOn(RegisterOn(n, path, h1).0, path, h2) == RegisterOn(n, path, h2)
  {
    RegisterFromTwice(n, path, h1, h2);
  }

  /** One step of a lookup: the first token selects the child, or there is no node. */
  lemma LookupCons(n: Node, k: string, q: seq<string>)
    ensures Lookup(n, [k] + q) == if k in n.children then Lookup(n.children[k], q) else None
  {
    assert ([k] + q)[0] == k && ([k] + q)[1..] == q;
  }

  /** A trie is determined by its paths and the handlers at them. */
  lemma {:induction false} TrieExtensionality(a: Node, b: Node)
    requires forall q :: Lookup(a, q).Some? <==> Lookup(b, q).Some?
    requires forall q :: HandlerAt(a, q) == HandlerAt(b, q)
    ensures a == b
    decreases a
  {
    assert HandlerAt(a, []) == HandlerAt(b, []);
    forall k | k in a.children || k in b.children
      ensures k in a.children && k in b.children && a.children[k] == b.children[k]
    {
      LookupCons(a, k, []);
      LookupCons(b, k, []);
      assert [k] + [] == [k];
      assert Lookup(a, [k]).Some? <==> Lookup(b, [k]).Some?;
      assert k in a.children && k in b.children;
      var ca, cb := a.children[k], b.children[k];
      forall q ensures (Lookup(ca, q).Some? <==> Lookup(cb, q).Some?) && HandlerAt(ca, q) == HandlerAt(cb, q) {
        LookupCons(a, k, q);
        LookupCons(b, k, q);
        assert HandlerAt(a, [k] + q) == HandlerAt(b, [k] + q);
      }
      TrieExtensionality(ca, cb);
    }
    assert a.children == b.children;
  }

  // ---------------------------------------------------------------------------
  // Descent shared by completion and execution

  /**
   Follows the tokens from `n` while the next one names a child; gives the
   node where the descent stops and how many tokens it consumed.
   */
  function Descend(n: Node, toks: seq<string>): (r: (Node, nat))
    ensures r.1 <= |toks|
    ensures Lookup(n, toks[..r.1]) == Some(r.0)
    ensures r.1 == |toks| || toks[r.1] !in r.0.children
    decreases |toks|
  {
    if toks != [] && toks[0] in n.children then
      var (m, c) := Descend(n.children[toks[0]], toks[1..]);
      assert toks[..c + 1][0] == toks[0] && toks[..c + 1][1..] == toks[1..][..c];
      (m, c + 1)
    else
      (n, 0)
  }

  /** The descent stops at the longest prefix of the tokens that is a path of the trie. */
  lemma DescendIsLongestMatch(n: Node, toks: seq<string>, i: nat)
    requires i <= |toks|
    ensures Lookup(n, toks[..i]).Some? <==> i <= Descend(n, toks).1
  {
    var (m, c) := Descend(n, toks);
    if i <= c {
      assert toks[..c] == toks[..i] + toks[i..c];
      LookupAppend(n, toks[..i], toks[i..c]);
    } else {
      assert toks[..i] == toks[..c] + ([toks[c]] + toks[c + 1..i]);
      LookupAppend(n, toks[..c], [toks[c]] + toks[c + 1..i]);
    }
  }

  /** The descent is the only stopping point: a reached node whose next token is not a child is where it stops. */
  lemma DescendStopsAt(n: Node, toks: seq<string>, i: nat, m: Node)
    requires i <= |toks|
    requires Lookup(n, toks[..i]) == Some(m)
    requires i == |toks| || toks[i] !in m.children
    ensures Descend(n, toks) == (m, i)
  {
    var c := Descend(n, toks).1;
    DescendIsLongestMatch(n, toks, i);
    if c > i {
      DescendIsLongestMatch(n, toks, i + 1);
      assert toks[..i + 1] == toks[..i] + [toks[i]];
      LookupAppend(n, toks[..i], [toks[i]]);
    }
  }

  // ---------------------------------------------------------------------------
  // Execution

  /** The exec invocation a node makes, if it has a handler. */
  function Invocation(m: Node, argv: seq<string>): (c: Option<Call>)
    ensures c.Some? <==> m.handler.Some?
    ensures c.Some? ==> c.value.argv == argv
  {
    match m.handler
    case None => None
    case Some(h) => Some(Call(h.id, argv))
  }

  /**
   `Cli::_exec`: descends while the next portion names a child; the node
   where it stops invokes its exec callback with the unchanged `argv`.
   */
  function ExecFrom(n: Node, portions: seq<string>, argv: seq<string>): (c: Option<Call>)
    ensures c == Invocation(Descend(n, portions).0, argv)
    decreases |portions|
  {
    if portions != [] then
      var portion := portions[0];
      if portion in n.children then ExecFrom(n.children[portion], portions[1..], argv)
      else Invocation(n, argv)
    else
      Invocation(n, argv)
  }

  /**
   What `Cli::exec` does with a line: the node where the descent over the
   line's tokens stops invokes its handler, if any, with ALL the tokens of the
   line.
   */
  function ExecOn(n: Node, line: string): (c: Option<Call>)
    ensures c.Some? ==> c.value.argv == SplitWhitespace(line)
    ensures AllWhitespace(line) ==> c == Invocation(n, [])
  {
    SplitEmptyIff(line);
    var toks := SplitWhitespace(line);
    Invocation(Descend(n, toks).0, toks)
  }

  /** A line of tokens whose descent stops at `m` after `i` tokens invokes `m` with all the tokens. */
  lemma ExecOnTokens(n: Node, toks: seq<string>, i: nat, m: Node)
    requires forall j :: 0 <= j < |toks| ==> IsToken(toks[j])
    requires i <= |toks| && Lookup(n, toks[..i]) == Some(m)
    requires i == |toks| || toks[i] !in m.children
    ensures ExecOn(n, Join(toks)) == Invocation(m, toks)
  {
    JoinRoundTrip(toks);
    DescendStopsAt(n, toks, i, m);
  }

  /**
   Executing a path that holds a handler, written with single spaces and
   followed by arguments that do not continue the path, calls that handler
   with the path and the arguments together.
   */
  lemma ExecHandled(n: Node, path: seq<string>, args: seq<string>, h: Handler)
    requires forall i :: 0 <= i < |path| ==> IsToken(path[i])
    requires forall i :: 0 <= i < |args| ==> IsToken(args[i])
    requires HandlerAt(n, path) == Some(h)
    requires args == [] || args[0] !in Lookup(n, path).value.children
    ensures ExecOn(n, Join(path + args)) == Some(Call(h.id, path + args))
  {
    var toks := path + args;
    var m := Lookup(n, path).value;
    AppendSlices(path, args, |path|);
    assert path[..|path|] == path;
    TokensAppend(path, args);
    if args != [] {
      assert toks[|path|] == args[0];
    }
    ExecOnTokens(n, toks, |path|, m);
  }

  /** Executing exactly a registered path calls its handler with the path's tokens. */
  lemma ExecRegisteredPath(n: Node, path: seq<string>, h: Handler)
    requires path != []
    requires forall i :: 0 <= i < |path| ==> IsToken(path[i])
    ensures ExecOn(RegisterOn(n, path, h).0, Join(path)) == Some(Call(h.id, path))
  {
    var n' := RegisterOn(n, path, h).0;
    RegisterEffect(n, path, h, path);
    assert HandlerAt(n', path) == Some(h);
    assert path + [] == path;
    ExecHandled(n', path, [], h);
  }

  // ---------------------------------------------------------------------------
  // Completion

  /**
   What the dynamic-complete callback of the stopping node contributes: it is
   called with the unconsumed tokens, or with `[""]` when none are left.
   */
  function DynamicSuggestions(m: Node, rest: seq<string>, dyn: DynComplete): (r: seq<string>)
    ensures r != [] ==> m.handler.Some? && m.handler.value.dynamicComplete
  {
    match m.handler
    case Some(h) => if h.dynamicComplete then dyn(h.id, if rest == [] then [""] else rest) else []
    case None => []
  }

  /**
   The child keys offered at the stopping node: all of them when no token is
   left, otherwise those that start with the unmatched token.
   */
  function StaticSuggestions(m: Node, rest: seq<string>): (s: set<string>)
    ensures s <= m.children.Keys
    ensures rest != [] && rest[0] in m.children ==> rest[0] in s
  {
    if rest == [] then m.children.Keys
    else set k | k in m.children && rest[0] <= k
  }

  /** `ks` lists the elements of `s`, each exactly once, in some order. */
  predicate Enumerates(ks: seq<string>, s: set<string>)
  {
    && (forall k :: k in ks ==> k in s)
    && (forall k :: k in s ==> k in ks)
    && (forall i, j :: 0 <= i < j < |ks| ==> ks[i] != ks[j])
  }

  /**
   `r` is a completion result for the tokens `toks`: the dynamic suggestions of
   the stopping node, then its offered child keys in map order.
   */
  predicate Completes(r: seq<string>, n: Node, toks: seq<string>, dyn: DynComplete)
  {
    var (m, c) := Descend(n, toks);
    var d := DynamicSuggestions(m, toks[c..], dyn);
    |d| <= |r| && r[..|d|] == d && Enumerates(r[|d|..], StaticSuggestions(m, toks[c..]))
  }

  /** The `filter` over `commands.keys()`: each key starting with `prefix`, once, in the map's order. */
  method KeysStartingWith(keys: set<string>, prefix: string) returns (ks: seq<string>)
    ensures Enumerates(ks, set k | k in keys && prefix <= k)
  {
    ks := [];
    var remaining := keys;
    while remaining != {}
      invariant remaining <= keys
      invariant forall k :: k in ks <==> k in keys && k !in remaining && prefix <= k
      invariant forall i, j :: 0 <= i < j < |ks| ==> ks[i] != ks[j]
      decreases |remaining|
    {
      var k :| k in remaining;
      if prefix <= k {
        ks := ks + [k];
      }
      remaining := remaining - {k};
    }
  }

  /**
   `Cli::_complete`: descends while the next portion names a child. At an
   unmatched portion it returns the dynamic-complete results for that portion
   and the rest, then the child keys starting with it; when the portions run
   out, the dynamic-complete results for `[""]`, then every child key.
   */
  method CompleteFrom(n: Node, portions: seq<string>, dyn: DynComplete) returns (r: seq<string>)
    ensures Completes(r, n, portions, dyn)
    decreases |portions|
  {
    if portions != [] {
      var portion := portions[0];
      if portion in n.children {
        r := CompleteFrom(n.children[portion], portions[1..], dyn);
        var c := Descend(n.children[portion], portions[1..]).1;
        assert portions[1..][c..] == portions[c + 1..];
        return;
      }
      r := [];
      if n.handler.Some? && n.handler.value.dynamicComplete {
        r := dyn(n.handler.value.id, [portion] + portions[1..]);
        assert [portion] + portions[1..] == portions;
      }
      var keys := KeysStartingWith(n.children.Keys, portion);
      r := r + keys;
    } else {
      r := [];
      if n.handler.Some? && n.handler.value.dynamicComplete {
        r := dyn(n.handler.value.id, [""]);
      }
      // `keys()` unfiltered: every key starts with the empty string
      var keys := KeysStartingWith(n.children.Keys, "");
      assert (set k | k in n.children.Keys && "" <= k) == n.children.Keys;
      r := r + keys;
    }
  }

  /** An enumeration lists as many keys as the set has: no key is left out or repeated. */
  lemma {:induction false} EnumeratesCount(ks: seq<string>, s: set<string>)
    requires Enumerates(ks, s)
    ensures |ks| == |s|
  {
    if ks != [] {
      var rest := s - {ks[0]};
      forall k | k in ks[1..] ensures k in rest {
        var i :| 0 <= i < |ks[1..]| && ks[1..][i] == k;
        assert ks[i + 1] == k;
      }
      forall k | k in rest ensures k in ks[1..] {
        var i :| 0 <= i < |ks| && ks[i] == k;
        assert ks[1..][i - 1] == k;
      }
      forall i, j | 0 <= i < j < |ks[1..]| ensures ks[1..][i] != ks[1..][j] {
        assert ks[1..][i] == ks[i + 1] && ks[1..][j] == ks[j + 1];
      }
      EnumeratesCount(ks[1..], rest);
    }
  }

  lemma EnumeratesOne(ks: seq<string>, x: string)
    requires Enumerates(ks, {x})
    ensures ks == [x]
  {
    EnumeratesCount(ks, {x});
    assert ks[0] in ks;
  }

  // ---------------------------------------------------------------------------
  // The engine

  /**
   A `Cli` root together with the exec invocations made so far, in order.
   Its methods are the public `Cli` API.
   */
  class Cli {
    var root: Node
    var calls: seq<Call>

    constructor ()
      ensures root == Empty && calls == []
    {
      root := Empty;
      calls := [];
    }

    /** `Cli::register`: a handler with an exec callback only. */
    method Register(cmd: seq<string>, exec: HandlerId) returns (res: Status)
      modifies this`root
      ensures (root, res) == RegisterOn(old(root), cmd, Handler(exec, false))
      ensures res == Ok <==> cmd != []
      ensures cmd == [] ==> root == old(root).(handler := Some(Handler(exec, false)))
    {
      res := Attach(cmd, Handler(exec, false));
    }

    /** `Cli::register_dyn_complete`: a handler with an exec and a dynamic-complete callback. */
    method RegisterDynComplete(cmd: seq<string>, exec: HandlerId) returns (res: Status)
      modifies this`root
      ensures (root, res) == RegisterOn(old(root), cmd, Handler(exec, true))
      ensures res == Ok <==> cmd != []
      ensures cmd == [] ==> root == old(root).(handler := Some(Handler(exec, true)))
    {
      res := Attach(cmd, Handler(exec, true));
    }

    /** The shared part of both registrations: `_register`, and the root handler on failure. */
    method Attach(cmd: seq<string>, h: Handler) returns (res: Status)
      modifies this`root
      ensures (root, res) == RegisterOn(old(root), cmd, h)
      ensures res == Ok <==> cmd != []
      ensures cmd == [] ==> root == old(root).(handler := Some(h))
    {
      var (n, r) := RegisterFrom(root, cmd, h);
      root := n;
      res := Ok;
      if r == Err {
        root := root.(handler := Some(h));
        res := Err;
      }
    }

    /**
     `Cli::complete`: the dynamic suggestions of the node where the descent
     over the line's tokens stops, then its offered child keys. It never fails
     and changes nothing.
     */
    method Complete(argv: string, dyn: DynComplete) returns (r: seq<string>)
      ensures Completes(r, root, SplitWhitespace(argv), dyn)
    {
      TrimKeepsTokens(argv);
      r := CompleteFrom(root, SplitWhitespace(Trim(argv)), dyn);
    }

    /**
     `Cli::exec`: `_exec` over the tokens of the trimmed line, with all the
     tokens of the line as arguments; the invocation, if any, is appended to
     `calls`.
     */
    method Exec(cmd: string)
      modifies this`calls
      ensures calls == old(calls) + match ExecOn(root, cmd) case None => [] case Some(c) => [c]
    {
      var argv := SplitWhitespace(cmd);
      var portions := SplitWhitespace(Trim(cmd));
      TrimKeepsTokens(cmd);
      var c := ExecFrom(root, portions, argv);
      if c.Some? {
        calls := calls + [c.value];
      }
    }
  }
}
