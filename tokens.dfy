/**
 Tokenizing of a command line, as `Cli::complete` and `Cli::exec` do it with
 Rust's `str::trim` and `str::split_whitespace`: a token is a maximal non-empty
 run of non-whitespace characters, and whitespace only separates tokens.
 */
module Tokens {

  /** Rust's `char::is_whitespace`: the Unicode White_Space property. */
  predicate IsWhitespace(c: char)
  {
    var x := c as int;
    (0x09 <= x <= 0x0D) || x == 0x20 || x == 0x85 || x == 0xA0 || x == 0x1680
    || (0x2000 <= x <= 0x200A) || x == 0x2028 || x == 0x2029 || x == 0x202F
    || x == 0x205F || x == 0x3000
  }

  predicate AllWhitespace(s: string)
  {
    forall i :: 0 <= i < |s| ==> IsWhitespace(s[i])
  }

  lemma AllWhitespaceAppend(a: string, b: string)
    ensures AllWhitespace(a + b) <==> AllWhitespace(a) && AllWhitespace(b)
  {
    if AllWhitespace(a) && AllWhitespace(b) {
      forall i | 0 <= i < |a + b| ensures IsWhitespace((a + b)[i]) {
        if i >= |a| {
          assert (a + b)[i] == b[i - |a|];
        }
      }
    }
    if AllWhitespace(a + b) {
      forall i | 0 <= i < |a| ensures IsWhitespace(a[i]) {
        assert a[i] == (a + b)[i];
      }
      forall i | 0 <= i < |b| ensures IsWhitespace(b[i]) {
        assert b[i] == (a + b)[i + |a|];
      }
    }
  }

  /** A token: a non-empty run of non-whitespace characters. */
  predicate IsToken(t: string)
  {
    |t| > 0 && forall i :: 0 <= i < |t| ==> !IsWhitespace(t[i])
  }

  /** `str::trim_start`: a suffix of `s` that does not start with whitespace. */
  function TrimStart(s: string): (r: string)
    ensures |r| <= |s| && r == s[|s| - |r|..]
    ensures r == [] || !IsWhitespace(r[0])
  {
    if s != [] && IsWhitespace(s[0]) then TrimStart(s[1..]) else s
  }

  /** `str::trim_end`: a prefix of `s` that does not end with whitespace. */
  function TrimEnd(s: string): (r: string)
    ensures |r| <= |s| && r == s[..|r|]
    ensures r == [] || !IsWhitespace(r[|r| - 1])
  {
    if s != [] && IsWhitespace(s[|s| - 1]) then TrimEnd(s[..|s| - 1]) else s
  }

  /** What `str::trim_start` drops is whitespace only. */
  lemma {:induction false} TrimStartDropsWhitespace(s: string)
    ensures AllWhitespace(s[..|s| - |TrimStart(s)|])
    decreases |s|
  {
    if s != [] && IsWhitespace(s[0]) {
      var t := s[1..];
      var r := TrimStart(t);
      TrimStartDropsWhitespace(t);
      assert s[..|s| - |r|] == [s[0]] + t[..|t| - |r|];
      AllWhitespaceAppend([s[0]], t[..|t| - |r|]);
    }
  }

  /** What `str::trim_end` drops is whitespace only. */
  lemma {:induction false} TrimEndDropsWhitespace(s: string)
    ensures AllWhitespace(s[|TrimEnd(s)|..])
    decreases |s|
  {
    if s != [] && IsWhitespace(s[|s| - 1]) {
      var t := s[..|s| - 1];
      var r := TrimEnd(t);
      TrimEndDropsWhitespace(t);
      assert s[|r|..] == t[|r|..] + [s[|s| - 1]];
      AllWhitespaceAppend(t[|r|..], [s[|s| - 1]]);
    }
  }

  /** `str::trim`: neither end of the result is whitespace. */
  function Trim(s: string): (r: string)
    ensures |r| <= |s|
    ensures r == [] || (!IsWhitespace(r[0]) && !IsWhitespace(r[|r| - 1]))
  {
    TrimEnd(TrimStart(s))
  }

  /** Length of the token that starts `s`: the index of the first whitespace, or |s|. */
  function WordLength(s: string): (k: nat)
    ensures k <= |s|
    ensures forall i :: 0 <= i < k ==> !IsWhitespace(s[i])
    ensures k < |s| ==> IsWhitespace(s[k])
  {
    if s == [] || IsWhitespace(s[0]) then 0 else 1 + WordLength(s[1..])
  }

  /** `str::split_whitespace`, collected into a sequence. */
  function SplitWhitespace(s: string): (toks: seq<string>)
    ensures forall i :: 0 <= i < |toks| ==> IsToken(toks[i])
    decreases |s|
  {
    if s == [] then []
    else if IsWhitespace(s[0]) then SplitWhitespace(s[1..])
    else
      var k := WordLength(s);
      [s[..k]] + SplitWhitespace(s[k..])
  }

  /** The tokens of a path written out with single spaces between them. */
  function Join(toks: seq<string>): string
  {
    if toks == [] then ""
    else if |toks| == 1 then toks[0]
    else toks[0] + " " + Join(toks[1..])
  }

  lemma {:induction false} WordLengthAppend(a: string, b: string)
    requires a != []
    requires b == [] || IsWhitespace(a[|a| - 1]) || IsWhitespace(b[0])
    ensures WordLength(a + b) == WordLength(a)
    decreases |a|
  {
    if !IsWhitespace(a[0]) {
      assert (a + b)[1..] == a[1..] + b;
      if a[1..] != [] {
        WordLengthAppend(a[1..], b);
      }
    }
  }

  /** Splitting distributes over a concatenation whose seam is whitespace (or an end). */
  lemma {:induction false} SplitAppend(a: string, b: string)
    requires a == [] || b == [] || IsWhitespace(a[|a| - 1]) || IsWhitespace(b[0])
    ensures SplitWhitespace(a + b) == SplitWhitespace(a) + SplitWhitespace(b)
    decreases |a|
  {
    if a == [] {
      assert a + b == b;
    } else if IsWhitespace(a[0]) {
      AppendSlices(a, b, 1);
      assert (a + b)[0] == a[0];
      SplitAppend(a[1..], b);
    } else {
      var k := WordLength(a);
      SplitAppendWord(a, b, k);
      SplitAppend(a[k..], b);
      AppendAssoc([a[..k]], SplitWhitespace(a[k..]), SplitWhitespace(b));
    }
  }

  /** The first word of `a + b` is the first word of `a` when the seam is a separator. */
  lemma SplitAppendWord(a: string, b: string, k: nat)
    requires a != [] && !IsWhitespace(a[0])
    requires b == [] || IsWhitespace(a[|a| - 1]) || IsWhitespace(b[0])
    requires k == WordLength(a)
    ensures SplitWhitespace(a + b) == [a[..k]] + SplitWhitespace(a[k..] + b)
    ensures SplitWhitespace(a) == [a[..k]] + SplitWhitespace(a[k..])
  {
    WordLengthAppend(a, b);
    AppendSlices(a, b, k);
    AppendSlices(a, b, 1);
  }

  lemma AppendAssoc<T>(a: seq<T>, b: seq<T>, c: seq<T>)
    ensures a + (b + c) == (a + b) + c
  {
  }

  /** Slicing a concatenation within its first part. */
  lemma AppendSlices<T>(a: seq<T>, b: seq<T>, k: nat)
    requires k <= |a|
    ensures (a + b)[..k] == a[..k] && (a + b)[k..] == a[k..] + b
  {
  }

  /** A line has no tokens exactly when it is all whitespace. */
  lemma {:induction false} SplitEmptyIff(s: string)
    ensures SplitWhitespace(s) == [] <==> AllWhitespace(s)
    decreases |s|
  {
    if s != [] && IsWhitespace(s[0]) {
      SplitEmptyIff(s[1..]);
      if AllWhitespace(s[1..]) {
        forall i | 1 <= i < |s| ensures IsWhitespace(s[i]) {
          assert s[i] == s[1..][i - 1];
        }
      }
    }
  }

  lemma SplitOfToken(t: string)
    requires IsToken(t)
    ensures SplitWhitespace(t) == [t]
  {
    assert WordLength(t) == |t|;
    assert t[..|t|] == t;
  }

  /** Repeated whitespace between two parts of a line counts as one separator. */
  lemma CollapseWhitespace(a: string, w: string, b: string)
    requires w != [] && AllWhitespace(w)
    ensures SplitWhitespace(a + w + b) == SplitWhitespace(a) + SplitWhitespace(b)
  {
    SplitAppend(w, b);
    SplitEmptyIff(w);
    assert SplitWhitespace(w + b) == SplitWhitespace(b);
    AppendAssoc(a, w, b);
    SplitAppend(a, w + b);
  }

  /** Trimming before splitting changes nothing: `split_whitespace` already skips both ends. */
  lemma TrimKeepsTokens(s: string)
    ensures SplitWhitespace(Trim(s)) == SplitWhitespace(s)
  {
    TrimStartKeepsTokens(s);
    TrimEndKeepsTokens(TrimStart(s));
  }

  lemma TrimStartKeepsTokens(s: string)
    ensures SplitWhitespace(TrimStart(s)) == SplitWhitespace(s)
  {
    var t := TrimStart(s);
    var lead := s[..|s| - |t|];
    TrimStartDropsWhitespace(s);
    assert s == lead + t;
    SplitAppend(lead, t);
    SplitEmptyIff(lead);
  }

  lemma TrimEndKeepsTokens(t: string)
    ensures SplitWhitespace(TrimEnd(t)) == SplitWhitespace(t)
  {
    var r := TrimEnd(t);
    var trail := t[|r|..];
    TrimEndDropsWhitespace(t);
    assert t == r + trail;
    SplitAppend(r, trail);
    SplitEmptyIff(trail);
  }

  lemma TokensAppend(a: seq<string>, b: seq<string>)
    requires forall i :: 0 <= i < |a| ==> IsToken(a[i])
    requires forall i :: 0 <= i < |b| ==> IsToken(b[i])
    ensures forall i :: 0 <= i < |a + b| ==> IsToken((a + b)[i])
  {
    forall i | 0 <= i < |a + b| ensures IsToken((a + b)[i]) {
      if i < |a| {
        assert (a + b)[i] == a[i];
      } else {
        assert (a + b)[i] == b[i - |a|];
      }
    }
  }

  /** Joining a path of tokens with single spaces and splitting again gives the path back. */
  lemma {:induction false} JoinRoundTrip(toks: seq<string>)
    requires forall i :: 0 <= i < |toks| ==> IsToken(toks[i])
    ensures SplitWhitespace(Join(toks)) == toks
  {
    if |toks| == 1 {
      SplitOfToken(toks[0]);
    } else if |toks| > 1 {
      var tail := Join(toks[1..]);
      JoinRoundTrip(toks[1..]);
      SplitOfToken(toks[0]);
      assert IsWhitespace(" "[0]);
      SplitEmptyIff(" ");
      SplitAppend(" ", tail);
      assert toks[0] + " " + tail == toks[0] + (" " + tail);
      SplitAppend(toks[0], " " + tail);
      assert [toks[0]] + toks[1..] == toks;
    }
  }
}
