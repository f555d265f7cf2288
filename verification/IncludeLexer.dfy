/**
 * Rewriting the active include directives of a BIRD main configuration (agent/bird.go). A string is a text of bytes.
 */
module IncludeLexer {
  import opened Text

  predicate IsBlank(c: char) {
    c == ' ' || c == '\t' || c == '\r' || c == '\n'
  }

  // ----- One token

  /** Lexing goes from token to token; an include directive is known by where its path stands. */
  datatype Token = Other(length: nat) | Include(first: nat, close: nat)
  {
    function Length(): nat {
      if Include? then close + 1 else length
    }
  }

  function LineEnd(s: string): (n: nat)
    ensures n <= |s|
  {
    if s == "" || s[0] == '\n' then 0 else 1 + LineEnd(s[1..])
  }

  lemma {:induction false} LineEndIs(s: string, n: nat)
    requires n <= |s| && (forall k :: 0 <= k < n ==> s[k] != '\n') && (n < |s| ==> s[n] == '\n')
    ensures LineEnd(s) == n
  {
    if n > 0 {
      LineEndIs(s[1..], n - 1);
    }
  }

  lemma {:induction false} LineEndShape(s: string)
    ensures (forall k :: 0 <= k < LineEnd(s) ==> s[k] != '\n') && (LineEnd(s) < |s| ==> s[LineEnd(s)] == '\n')
  {
    if s != "" && s[0] != '\n' {
      LineEndShape(s[1..]);
      assert forall k :: 1 <= k < LineEnd(s) ==> s[k] == s[1..][k - 1];
    }
  }

  function Blanks(s: string): (n: nat)
    ensures n <= |s|
  {
    if s == "" || !IsBlank(s[0]) then 0 else 1 + Blanks(s[1..])
  }

  lemma {:induction false} BlanksIs(s: string, n: nat)
    requires n <= |s| && (forall k :: 0 <= k < n ==> IsBlank(s[k])) && (n < |s| ==> !IsBlank(s[n]))
    ensures Blanks(s) == n
  {
    if n > 0 {
      BlanksIs(s[1..], n - 1);
    }
  }

  lemma {:induction false} BlanksShape(s: string)
    ensures (forall k :: 0 <= k < Blanks(s) ==> IsBlank(s[k])) && (Blanks(s) < |s| ==> !IsBlank(s[Blanks(s)]))
  {
    if s != "" && IsBlank(s[0]) {
      BlanksShape(s[1..]);
      assert forall k :: 1 <= k < Blanks(s) ==> s[k] == s[1..][k - 1];
    }
  }

  /** The end of a block comment, after its opening. One left open ends before the last character. */
  function BlockEnd(s: string): (n: nat)
    ensures n <= |s|
  {
    if |s| < 2 then 0
    else if s[0] == '*' && s[1] == '/' then 2
    else 1 + BlockEnd(s[1..])
  }

  /** The closing quote of a string, after its opening; the length of the text if it is left open. */
  function Close(s: string): (n: nat)
    ensures n <= |s| && (n < |s| ==> s[n] == '"')
  {
    if s == "" then 0
    else if s[0] == '\\' then (if |s| == 1 then 1 else 2 + Close(s[2..]))
    else if s[0] == '"' then 0
    else 1 + Close(s[1..])
  }

  predicate SpellsInclude(s: string) {
    |s| >= 7 && s[0] == 'i' && s[1] == 'n' && s[2] == 'c' && s[3] == 'l' && s[4] == 'u' && s[5] == 'd' && s[6] == 'e'
  }

  predicate IsKeyword(s: string, afterWord: bool) {
    SpellsInclude(s) && !afterWord && (|s| == 7 || !IsWord(s[7]))
  }

  predicate IsDirective(s: string, afterWord: bool) {
    && IsKeyword(s, afterWord)
    && var open := 7 + Blanks(s[7..]);
    && open < |s| && s[open] == '"'
    && Close(s[open + 1..]) < |s| - open - 1
  }

  predicate TokenFits(s: string, t: Token) {
    && 1 <= t.Length() <= |s|
    && (t.Include? ==> 8 <= t.first <= t.close && s[t.first - 1] == '"' && s[t.close] == '"')
  }

  function Next(s: string, afterWord: bool): (t: Token)
    requires s != ""
    ensures TokenFits(s, t)
  {
    if s[0] == '#' || (s[0] == '/' && |s| > 1 && s[1] == '/') then Other(LineEnd(s))
    else if s[0] == '/' && |s| > 1 && s[1] == '*' then Other(2 + BlockEnd(s[2..]))
    else if s[0] == '"' then
      var close := Close(s[1..]);
      Other(if close < |s| - 1 then close + 2 else |s|)
    else if IsDirective(s, afterWord) then
      var first := 8 + Blanks(s[7..]);
      Include(first, first + Close(s[first..]))
    else Other(1)
  }

  // ----- Whole texts

  datatype Tokens = End | Then(token: Token, rest: Tokens)

  predicate After(s: string, t: Token)
    requires 1 <= t.Length() <= |s|
  {
    IsWord(s[t.Length() - 1])
  }

  predicate Fits(s: string, ts: Tokens) {
    match ts
    case End => s == ""
    case Then(t, rest) => TokenFits(s, t) && Fits(s[t.Length()..], rest)
  }

  function Lex(s: string, afterWord: bool): (ts: Tokens)
    ensures Fits(s, ts)
    decreases |s|
  {
    if s == "" then End
    else
      var t := Next(s, afterWord);
      Then(t, Lex(s[t.Length()..], After(s, t)))
  }

  /** The paths of the active include directives, in order. */
  function Includes(s: string, ts: Tokens): seq<string>
    requires Fits(s, ts)
  {
    match ts
    case End => []
    case Then(t, rest) =>
      var more := Includes(s[t.Length()..], rest);
      if t.Include? then [s[t.first..t.close]] + more else more
  }

  lemma {:induction false} BlanksBefore(gap: string, rest: string)
    requires (forall c :: c in gap ==> c in {' ', '\t', '\r', '\n'}) && rest != "" && !IsBlank(rest[0])
    ensures Blanks(gap + rest) == |gap|
  {
    if gap == "" {
      assert gap + rest == rest;
    } else {
      assert (gap + rest)[1..] == gap[1..] + rest && gap[0] in gap;
      assert forall c :: c in gap[1..] ==> c in gap;
      BlanksBefore(gap[1..], rest);
    }
  }

  lemma GapRead(gap: string, quoted: string)
    requires forall c :: c in gap ==> c in {' ', '\t', '\r', '\n'}
    ensures
      var tail := gap + ("\"" + quoted);
      && Blanks(tail) == |gap| < |tail| && tail[|gap|] == '"' && tail[|gap| + 1..] == quoted
      && !IsWord(tail[0])
  {
    BlanksBefore(gap, "\"" + quoted);
    assert gap != "" ==> gap[0] in gap;
  }

  lemma PathRead(path: string, rest: string)
    requires Plain(path)
    ensures
      var quoted := path + "\"" + rest;
      Close(quoted) == |path| < |quoted| && quoted[..|path|] == path && quoted[|path| + 1..] == rest
  {
    PlainCloses(path, rest);
  }

  lemma DirectiveAt(s: string, blanks: nat, length: nat)
    requires SpellsInclude(s) && 8 + blanks + length < |s| && !IsWord(s[7])
    requires Blanks(s[7..]) == blanks && s[7 + blanks] == '"' && Close(s[8 + blanks..]) == length
    ensures Next(s, false) == Include(8 + blanks, 8 + blanks + length)
  {
    hide Blanks, Close;
  }

  /** The word, blanks and a quoted path are a directive. */
  lemma DirectiveIs(s: string, gap: string, path: string, rest: string)
    requires |s| >= 7 && SpellsInclude(s) && s[7..] == gap + ("\"" + (path + "\"" + rest))
    requires (forall c :: c in gap ==> c in {' ', '\t', '\r', '\n'}) && Plain(path)
    ensures
      var first := 8 + |gap|;
      && first + |path| < |s| && Next(s, false) == Include(first, first + |path|)
      && s[first..first + |path|] == path && s[first + |path| + 1..] == rest
  {
    hide *;
    var quoted := path + "\"" + rest;
    GapRead(gap, quoted);
    PathRead(path, rest);
    DirectiveCut(s, s[7..], |gap|, quoted, |path|);
    DirectiveAt(s, |gap|, |path|);
  }

  lemma DirectiveCut(s: string, tail: string, i: nat, quoted: string, j: nat)
    requires |s| >= 7 && s[7..] == tail && i < |tail| && tail[i + 1..] == quoted && j < |quoted|
    ensures |s| == 7 + |tail| && s[7] == tail[0] && s[7 + i] == tail[i] && s[8 + i..] == quoted
    ensures s[8 + i..8 + i + j] == quoted[..j] && s[8 + i + j + 1..] == quoted[j + 1..]
  {
  }

  lemma FirstInclude(s: string, t: Token, rest: Tokens)
    requires Fits(s, Then(t, rest)) && t.Include?
    ensures Includes(s, Then(t, rest)) == [s[t.first..t.close]] + Includes(s[t.close + 1..], rest)
  {
  }

  /** It is read as one, and reading goes on behind it. */
  lemma IncludeIsRead(s: string, gap: string, path: string, rest: string)
    requires |s| >= 7 && SpellsInclude(s) && s[7..] == gap + ("\"" + (path + "\"" + rest))
    requires (forall c :: c in gap ==> c in {' ', '\t', '\r', '\n'}) && Plain(path)
    ensures Includes(s, Lex(s, false)) == [path] + Includes(rest, Lex(rest, false))
  {
    hide *;
    DirectiveIs(s, gap, path, rest);
    IncludeFirst(s, Include(8 + |gap|, 8 + |gap| + |path|));
  }

  lemma LexFits(s: string, afterWord: bool)
    ensures Fits(s, Lex(s, afterWord)) && (s != "" ==> TokenFits(s, Next(s, afterWord)))
  {
  }

  lemma IncludeFirst(s: string, t: Token)
    requires s != "" && Next(s, false) == t && t.Include?
    ensures t.first <= t.close < |s|
    ensures Includes(s, Lex(s, false))
      == [s[t.first..t.close]] + Includes(s[t.close + 1..], Lex(s[t.close + 1..], false))
  {
    hide Next, Lex, Includes, Fits;
    LexFirst(s, false, t);
    LexFits(s, false);
    LexFits(s[t.close + 1..], false);
    FirstInclude(s, t, Lex(s[t.close + 1..], false));
  }

  /** Only that very word, standing alone, is the keyword. */
  lemma KeywordIs(s: string, afterWord: bool)
    ensures IsKeyword(s, afterWord) <==>
      !afterWord && |s| >= 7 && s[..7] == "include"
      && (|s| > 7 ==> !(s[7] == '_' || 'a' <= s[7] <= 'z' || 'A' <= s[7] <= 'Z' || '0' <= s[7] <= '9'))
  {
    if |s| >= 7 {
      assert forall i :: 0 <= i < 7 ==> s[..7][i] == s[i];
    }
  }

  predicate Names(s: string, t: Token, target: string)
    requires TokenFits(s, t)
  {
    t.Include? && s[t.first..t.close] == target
  }

  function Head(s: string, t: Token, target: string, replacement: string): string
    requires TokenFits(s, t)
  {
    if Names(s, t, target) then s[..t.first] + replacement + "\"" else s[..t.Length()]
  }

  function Rewrite(s: string, ts: Tokens, target: string, replacement: string): string
    requires Fits(s, ts)
  {
    match ts
    case End => ""
    case Then(t, rest) => Head(s, t, target, replacement) + Rewrite(s[t.Length()..], rest, target, replacement)
  }

  function Replaced(paths: seq<string>, target: string, replacement: string): seq<string> {
    if paths == [] then []
    else [if paths[0] == target then replacement else paths[0]] + Replaced(paths[1..], target, replacement)
  }

  predicate Plain(s: string) {
    '"' !in s && '\\' !in s
  }

  // ----- What the lexer looks at ahead of a token

  lemma {:induction false} BlockEndStable(s: string, x: string)
    requires BlockEnd(s) + 1 < |s|
    ensures BlockEnd(s[..BlockEnd(s)] + x) == BlockEnd(s)
  {
    var u := s[..BlockEnd(s)] + x;
    if s[0] == '*' && s[1] == '/' {
      assert u[0] == '*' && u[1] == '/';
    } else {
      BlockEndStable(s[1..], x);
      assert u[1..] == s[1..][..BlockEnd(s[1..])] + x;
      assert BlockEnd(s[1..]) >= 1;
      assert u[0] == s[0] && u[1] == s[1];
    }
  }

  lemma {:induction false} CloseStable(s: string, x: string)
    requires Close(s) < |s|
    ensures Close(s[..Close(s) + 1] + x) == Close(s)
  {
    var u := s[..Close(s) + 1] + x;
    assert u[0] == s[0];
    if s[0] == '\\' {
      CloseStable(s[2..], x);
      assert u[2..] == s[2..][..Close(s[2..]) + 1] + x;
    } else if s[0] != '"' {
      CloseStable(s[1..], x);
      assert u[1..] == s[1..][..Close(s[1..]) + 1] + x;
    }
  }

  lemma {:induction false} PlainCloses(p: string, x: string)
    requires Plain(p)
    ensures Close(p + "\"" + x) == |p|
  {
    var u := p + "\"" + x;
    if p != "" {
      assert u[0] == p[0] && p[0] in p;
      assert u[1..] == p[1..] + "\"" + x;
      PlainCloses(p[1..], x);
    }
  }

  /** Nothing up to and including the first quote is rewritten. */
  lemma {:induction false} PrefixKept(s: string, ts: Tokens, target: string, replacement: string, k: nat)
    requires Fits(s, ts) && k <= |s| && forall m :: 0 <= m < k - 1 ==> s[m] != '"'
    ensures k <= |Rewrite(s, ts, target, replacement)| && Rewrite(s, ts, target, replacement)[..k] == s[..k]
  {
    match ts
    case End =>
    case Then(t, rest) =>
      var n := t.Length();
      var head, tail := Head(s, t, target, replacement), Rewrite(s[n..], rest, target, replacement);
      if t.Include? {
        assert k <= t.first;
        assert head[..k] == s[..k] && (head + tail)[..k] == head[..k];
      } else if k <= n {
        assert (head + tail)[..k] == s[..k];
      } else {
        PrefixKept(s[n..], rest, target, replacement, k - n);
        assert (head + tail)[..k] == head + tail[..k - n];
        assert s[..k] == s[..n] + s[n..][..k - n];
      }
  }

  predicate NoIncludes(ts: Tokens) {
    ts.Then? ==> ts.token.Other? && NoIncludes(ts.rest)
  }

  lemma {:induction false} WithoutIncludes(s: string, ts: Tokens, target: string, replacement: string)
    requires Fits(s, ts) && NoIncludes(ts)
    ensures Rewrite(s, ts, target, replacement) == s
  {
    match ts
    case End =>
    case Then(t, rest) =>
      WithoutIncludes(s[t.length..], rest, target, replacement);
      Halves(s, t.length);
  }

  lemma {:induction false} WithoutQuotes(s: string, ts: Tokens)
    requires Fits(s, ts) && '"' !in s
    ensures NoIncludes(ts)
  {
    match ts
    case End =>
    case Then(t, rest) =>
      assert TokenFits(s, t);
      WithoutQuotes(s[t.Length()..], rest);
  }

  /** An open string swallows the rest, also after characters that start nothing. */
  lemma {:induction false} OpenStringKept(s: string, afterWord: bool, q: nat)
    requires q < |s| && s[q] == '"' && Close(s[q + 1..]) == |s| - q - 1
    requires forall m :: 0 <= m < q ==> s[m] != '#' && s[m] != '/' && s[m] != '"' && s[m] != 'i'
    ensures NoIncludes(Lex(s, afterWord))
    decreases q
  {
    if q > 0 {
      NextIsOther(s, afterWord);
      LexFirst(s, afterWord, Other(1));
      assert s[1..][q..] == s[q + 1..];
      OpenStringKept(s[1..], IsWord(s[0]), q - 1);
    } else {
      NextIsOpenString(s, afterWord);
      LexFirst(s, afterWord, Other(|s|));
      LexNothing(s[|s|..], After(s, Other(|s|)));
    }
  }

  lemma LexNothing(s: string, afterWord: bool)
    requires s == ""
    ensures Lex(s, afterWord) == End
  {
  }

  lemma LexFirst(s: string, afterWord: bool, t: Token)
    requires s != "" && Next(s, afterWord) == t
    ensures Lex(s, afterWord) == Then(t, Lex(s[t.Length()..], After(s, t)))
  {
  }

  lemma NextIsOther(s: string, afterWord: bool)
    requires s != "" && s[0] != '#' && s[0] != '/' && s[0] != '"' && s[0] != 'i'
    ensures Next(s, afterWord) == Other(1)
  {
  }

  lemma NextIsOpenString(s: string, afterWord: bool)
    requires s != "" && s[0] == '"' && Close(s[1..]) == |s| - 1
    ensures Next(s, afterWord) == Other(|s|)
  {
  }

  function FirstQuote(s: string): (q: nat)
    requires '"' in s
    ensures q < |s| && s[q] == '"' && forall m :: 0 <= m < q ==> s[m] != '"'
  {
    if s[0] == '"' then 0 else 1 + FirstQuote(s[1..])
  }

  /** What is no directive does not become one by rewriting what follows its first letter. */
  lemma NoNewDirective(s: string, afterWord: bool, target: string, replacement: string)
    requires s != "" && s[0] == 'i' && !IsDirective(s, afterWord)
    ensures !IsDirective(s[..1] + Rewrite(s[1..], Lex(s[1..], true), target, replacement), afterWord)
  {
    hide Lex, Rewrite, Next;
    var ts := Lex(s[1..], true);
    var tail := Rewrite(s[1..], ts, target, replacement);
    var u := s[..1] + tail;
    if '"' in s {
      var q := FirstQuote(s);
      PrefixKept(s[1..], ts, target, replacement, q);
      SamePrefix(s, u, tail, q);
      if IsDirective(u, afterWord) {
        OpeningIsFirstQuote(u, afterWord, q);
        SameOpening(s, u, afterWord, q);
        OpenStringKept(s[1..], true, q - 1);
        WithoutIncludes(s[1..], ts, target, replacement);
        Halves(s, 1);
      }
    } else {
      WithoutQuotes(s[1..], ts);
      WithoutIncludes(s[1..], ts, target, replacement);
      Halves(s, 1);
    }
  }

  lemma Halves(s: string, n: nat)
    requires n <= |s|
    ensures s == s[..n] + s[n..]
  {
  }

  lemma Thirds(s: string, first: nat, close: nat)
    requires first <= close < |s| && s[close] == '"'
    ensures s[..close + 1] == s[..first] + s[first..close] + "\""
  {
  }

  lemma SamePrefix(s: string, u: string, tail: string, q: nat)
    requires 0 < q < |s| && u == s[..1] + tail && q <= |tail| && tail[..q] == s[1..][..q]
    ensures q < |u| && forall m :: 0 <= m <= q ==> u[m] == s[m]
  {
    forall m | 1 <= m <= q
      ensures u[m] == s[m]
    {
      assert u[m] == tail[..q][m - 1] && s[m] == s[1..][..q][m - 1];
    }
  }

  lemma OpeningIsFirstQuote(u: string, afterWord: bool, q: nat)
    requires IsKeyword(u, afterWord) && 7 + Blanks(u[7..]) < |u| && u[7 + Blanks(u[7..])] == '"'
    requires q < |u| && u[q] == '"' && forall m :: 0 <= m < q ==> u[m] != '"'
    ensures q == 7 + Blanks(u[7..]) && forall m :: 7 <= m < q ==> IsBlank(u[m])
  {
    BlanksShape(u[7..]);
    forall m | 7 <= m < 7 + Blanks(u[7..])
      ensures IsBlank(u[m])
    {
      assert u[m] == u[7..][m - 7];
    }
  }

  /** Two texts that agree up to the quote opening the path differ at most in where it closes. */
  lemma SameOpening(s: string, u: string, afterWord: bool, q: nat)
    requires IsKeyword(u, afterWord) && 7 <= q < |s| && q < |u| && u[q] == '"'
    requires (forall m :: 7 <= m < q ==> IsBlank(u[m])) && forall m :: 0 <= m <= q ==> u[m] == s[m]
    requires !IsDirective(s, afterWord)
    ensures s[1..][q - 1] == '"' && Close(s[1..][q - 1 + 1..]) == |s[1..]| - (q - 1) - 1
    ensures forall m :: 0 <= m < q - 1 ==> s[1..][m] != '#' && s[1..][m] != '/' && s[1..][m] != '"' && s[1..][m] != 'i'
  {
    BlanksIs(s[7..], q - 7);
    assert s[1..][q - 1 + 1..] == s[q + 1..];
    assert Close(s[q + 1..]) == |s| - q - 1;
  }

  // ----- A rewritten text has the same tokens

  function Moved(s: string, t: Token, target: string, replacement: string): Token
    requires TokenFits(s, t)
  {
    if Names(s, t, target) then Include(t.first, t.first + |replacement|) else t
  }

  lemma NextIsDirective(s: string, afterWord: bool, first: nat)
    requires IsKeyword(s, afterWord) && 8 <= first <= |s| && s[first - 1] == '"'
    requires forall k :: 7 <= k < first - 1 ==> IsBlank(s[k])
    requires Close(s[first..]) < |s| - first
    ensures Next(s, afterWord) == Include(first, first + Close(s[first..]))
  {
    BlanksIs(s[7..], first - 8);
  }

  lemma DirectiveShape(s: string, afterWord: bool)
    requires s != "" && Next(s, afterWord).Include?
    ensures
      var first := Next(s, afterWord).first;
      && IsKeyword(s, afterWord) && 8 <= first < |s| && s[first - 1] == '"'
      && (forall k :: 7 <= k < first - 1 ==> IsBlank(s[k]))
      && Close(s[first..]) < |s| - first && Next(s, afterWord).close == first + Close(s[first..])
  {
    BlanksShape(s[7..]);
    forall k | 7 <= k < Next(s, afterWord).first - 1
      ensures IsBlank(s[k])
    {
      assert s[k] == s[7..][k - 7];
    }
  }

  lemma DirectiveStable(s: string, afterWord: bool, path: string, x: string)
    requires s != "" && Next(s, afterWord).Include?
    requires path == s[Next(s, afterWord).first..Next(s, afterWord).close] || Plain(path)
    ensures Next(s[..Next(s, afterWord).first] + path + "\"" + x, afterWord)
         == Include(Next(s, afterWord).first, Next(s, afterWord).first + |path|)
  {
    DirectiveShape(s, afterWord);
    var t := Next(s, afterWord);
    var u := s[..t.first] + path + "\"" + x;
    PathCloses(s, t.first, path, x);
    assert forall k :: 0 <= k < t.first ==> u[k] == s[k];
    NextIsDirective(u, afterWord, t.first);
  }

  lemma PathCloses(s: string, first: nat, path: string, x: string)
    requires first < |s| && Close(s[first..]) < |s| - first
    requires path == s[first..first + Close(s[first..])] || Plain(path)
    ensures Close((s[..first] + path + "\"" + x)[first..]) == |path|
  {
    assert (s[..first] + path + "\"" + x)[first..] == path + "\"" + x;
    if Plain(path) {
      PlainCloses(path, x);
    } else {
      CloseStable(s[first..], x);
      assert s[first..][..Close(s[first..]) + 1] == path + "\"";
    }
  }

  lemma CommentStable(s: string, n: nat, tail: string)
    requires n < |s| && (s[0] == '#' || (s[0] == '/' && |s| > 1 && s[1] == '/')) && n == LineEnd(s)
    requires tail != "" && tail[0] == s[n]
    ensures Next(s[..n] + tail, false) == Other(n) && Next(s[..n] + tail, true) == Other(n)
  {
    var u := s[..n] + tail;
    LineEndShape(s);
    assert forall k :: 0 <= k < n ==> u[k] == s[k];
    assert n > 0 && (s[0] == '/' ==> n > 1) && u[n] == '\n';
    LineEndIs(u, n);
  }

  lemma BlockStable(s: string, n: nat, tail: string)
    requires |s| > 1 && s[0] == '/' && s[1] == '*' && n == 2 + BlockEnd(s[2..]) && n + 1 < |s|
    ensures Next(s[..n] + tail, false) == Other(n) && Next(s[..n] + tail, true) == Other(n)
  {
    var u := s[..n] + tail;
    BlockEndStable(s[2..], tail);
    assert u[2..] == s[2..][..BlockEnd(s[2..])] + tail;
    assert u[0] == s[0] && u[1] == s[1];
  }

  lemma StringStable(s: string, n: nat, tail: string)
    requires s != "" && s[0] == '"' && n == 2 + Close(s[1..]) && n <= |s|
    ensures Next(s[..n] + tail, false) == Other(n) && Next(s[..n] + tail, true) == Other(n)
  {
    var u := s[..n] + tail;
    CloseStable(s[1..], tail);
    assert u[1..] == s[1..][..Close(s[1..]) + 1] + tail;
    assert u[0] == s[0];
  }

  lemma SingleStable(s: string, afterWord: bool, tail: string)
    requires |s| > 1 && tail != "" && tail[0] == s[1]
    requires s[0] != '#' && s[0] != '"' && !(s[0] == '/' && (s[1] == '/' || s[1] == '*'))
    requires !IsDirective(s[..1] + tail, afterWord)
    ensures Next(s[..1] + tail, afterWord) == Other(1)
  {
    var u := s[..1] + tail;
    assert u[0] == s[0] && u[1] == s[1];
  }

  /** The text after a token may be exchanged for one that begins alike, when the token is no open end. */
  lemma OtherStable(s: string, afterWord: bool, tail: string)
    requires s != "" && Next(s, afterWord).Other? && Next(s, afterWord).length + 1 < |s|
    requires tail != "" && tail[0] == s[Next(s, afterWord).length]
    requires s[0] == 'i' ==> !IsDirective(s[..Next(s, afterWord).length] + tail, afterWord)
    ensures Next(s[..Next(s, afterWord).length] + tail, afterWord) == Next(s, afterWord)
  {
    var n := Next(s, afterWord).length;
    if s[0] == '#' || (s[0] == '/' && s[1] == '/') {
      CommentStable(s, n, tail);
    } else if s[0] == '/' && s[1] == '*' {
      BlockStable(s, n, tail);
    } else if s[0] == '"' {
      StringStable(s, n, tail);
    } else {
      assert s[0] != 'i' ==> !IsDirective(s[..1] + tail, afterWord);
      SingleStable(s, afterWord, tail);
    }
  }

  lemma OtherKept(s: string, afterWord: bool, target: string, replacement: string)
    requires s != "" && Next(s, afterWord).Other?
    ensures
      var n := Next(s, afterWord).length;
      Next(s[..n] + Rewrite(s[n..], Lex(s[n..], After(s, Other(n))), target, replacement), afterWord) == Other(n)
  {
    var n := Next(s, afterWord).length;
    var ts := Lex(s[n..], After(s, Other(n)));
    var tail := Rewrite(s[n..], ts, target, replacement);
    if n == |s| {
      assert s[..n] + tail == s;
    } else {
      PrefixKept(s[n..], ts, target, replacement, 1);
      assert tail[0] == tail[..1][0] == s[n..][..1][0];
      if n + 1 == |s| {
        LastCharacter(s[n..], ts, target, replacement);
        Halves(s, n);
      } else {
        if s[0] == 'i' {
          assert n == 1 && After(s, Other(1));
          NoNewDirective(s, afterWord, target, replacement);
        }
        OtherStable(s, afterWord, tail);
      }
    }
  }

  lemma LastCharacter(s: string, ts: Tokens, target: string, replacement: string)
    requires |s| == 1 && Fits(s, ts)
    ensures Rewrite(s, ts, target, replacement) == s
  {
    assert ts.token.Length() == 1 && ts.rest == End;
    WithoutIncludes(s, ts, target, replacement);
  }

  lemma DirectiveKept(s: string, afterWord: bool, target: string, replacement: string, tail: string)
    requires s != "" && Plain(replacement) && Next(s, afterWord).Include?
    ensures Next(Head(s, Next(s, afterWord), target, replacement) + tail, afterWord)
         == Moved(s, Next(s, afterWord), target, replacement)
  {
    var t := Next(s, afterWord);
    var path := if s[t.first..t.close] == target then replacement else s[t.first..t.close];
    DirectiveStable(s, afterWord, path, tail);
    Thirds(s, t.first, t.close);
    hide Next;
    assert Head(s, t, target, replacement) == s[..t.first] + path + "\"";
  }

  /** One step of lexing the rewritten text: the same token, with its path replaced or not, and the rewritten rest. */
  lemma TokenStable(s: string, afterWord: bool, target: string, replacement: string)
    requires s != "" && Plain(replacement)
    ensures
      var t := Next(s, afterWord);
      var tail := Rewrite(s[t.Length()..], Lex(s[t.Length()..], After(s, t)), target, replacement);
      Next(Head(s, t, target, replacement) + tail, afterWord) == Moved(s, t, target, replacement)
  {
    var t := Next(s, afterWord);
    if t.Include? {
      var tail := Rewrite(s[t.Length()..], Lex(s[t.Length()..], After(s, t)), target, replacement);
      DirectiveKept(s, afterWord, target, replacement, tail);
    } else {
      OtherKept(s, afterWord, target, replacement);
    }
  }

  lemma HeadShape(s: string, t: Token, target: string, replacement: string)
    requires TokenFits(s, t)
    ensures
      var head, v := Head(s, t, target, replacement), Moved(s, t, target, replacement);
      && |head| == v.Length() && TokenFits(head, v)
      && head[|head| - 1] == s[t.Length() - 1]
      && (t.Include? ==> head[v.first..v.close] == if Names(s, t, target) then replacement else s[t.first..t.close])
  {
  }

  /** The tokens of the rewritten text. */
  function AllMoved(s: string, ts: Tokens, target: string, replacement: string): Tokens
    requires Fits(s, ts)
  {
    match ts
    case End => End
    case Then(t, rest) => Then(Moved(s, t, target, replacement), AllMoved(s[t.Length()..], rest, target, replacement))
  }

  lemma {:induction false} RewrittenLexes(s: string, afterWord: bool, ts: Tokens, target: string, replacement: string)
    requires Plain(replacement) && ts == Lex(s, afterWord)
    ensures Lex(Rewrite(s, ts, target, replacement), afterWord) == AllMoved(s, ts, target, replacement)
    decreases ts
  {
    match ts
    case End =>
      LexNothing(s, afterWord);
    case Then(t, rest) =>
      LexShape(s, afterWord, t, rest);
      RewrittenLexes(s[t.Length()..], After(s, t), rest, target, replacement);
      RewrittenThen(s, afterWord, t, rest, target, replacement);
  }

  lemma RewrittenThen(s: string, afterWord: bool, t: Token, rest: Tokens, target: string, replacement: string)
    requires Plain(replacement) && s != "" && t == Next(s, afterWord) && rest == Lex(s[t.Length()..], After(s, t))
    requires Lex(Rewrite(s[t.Length()..], rest, target, replacement), After(s, t))
          == AllMoved(s[t.Length()..], rest, target, replacement)
    ensures Lex(Rewrite(s, Then(t, rest), target, replacement), afterWord)
      == AllMoved(s, Then(t, rest), target, replacement)
  {
    hide Lex, Next, Rewrite, AllMoved, Head, Moved;
    var tail := Rewrite(s[t.Length()..], rest, target, replacement);
    RewriteFirst(s, t, rest, target, replacement);
    TokenStable(s, afterWord, target, replacement);
    HeadShape(s, t, target, replacement);
    LexStep(Head(s, t, target, replacement), tail, afterWord, Moved(s, t, target, replacement));
  }

  lemma LexShape(s: string, afterWord: bool, t: Token, rest: Tokens)
    requires Lex(s, afterWord) == Then(t, rest)
    ensures s != "" && t == Next(s, afterWord) && rest == Lex(s[t.Length()..], After(s, t))
  {
  }

  lemma RewriteFirst(s: string, t: Token, rest: Tokens, target: string, replacement: string)
    requires Fits(s, Then(t, rest))
    ensures Rewrite(s, Then(t, rest), target, replacement)
         == Head(s, t, target, replacement) + Rewrite(s[t.Length()..], rest, target, replacement)
    ensures AllMoved(s, Then(t, rest), target, replacement)
         == Then(Moved(s, t, target, replacement), AllMoved(s[t.Length()..], rest, target, replacement))
  {
  }

  lemma LexStep(head: string, tail: string, afterWord: bool, t: Token)
    requires head != "" && |head| == t.Length() && Next(head + tail, afterWord) == t
    ensures Lex(head + tail, afterWord) == Then(t, Lex(tail, IsWord(head[|head| - 1])))
  {
    hide Next, Lex;
    assert (head + tail)[|head|..] == tail;
    assert (head + tail)[|head| - 1] == head[|head| - 1];
    LexFirst(head + tail, afterWord, t);
  }

  // ----- What a rewrite achieves

  lemma {:induction false} MovedIncludes(s: string, ts: Tokens, target: string, replacement: string)
    requires Fits(s, ts) && Fits(Rewrite(s, ts, target, replacement), AllMoved(s, ts, target, replacement))
    ensures Includes(Rewrite(s, ts, target, replacement), AllMoved(s, ts, target, replacement))
         == Replaced(Includes(s, ts), target, replacement)
  {
    match ts
    case End =>
    case Then(t, rest) =>
      var head, tail := Head(s, t, target, replacement), Rewrite(s[t.Length()..], rest, target, replacement);
      var v := Moved(s, t, target, replacement);
      HeadShape(s, t, target, replacement);
      assert (head + tail)[|head|..] == tail;
      IncludesStep(head, tail, v, AllMoved(s[t.Length()..], rest, target, replacement));
      MovedIncludes(s[t.Length()..], rest, target, replacement);
      var more := Includes(s[t.Length()..], rest);
      if t.Include? {
        ReplacedFirst(s[t.first..t.close], more, target, replacement);
      }
  }

  lemma IncludesStep(head: string, tail: string, t: Token, rest: Tokens)
    requires |head| == t.Length() && TokenFits(head, t) && Fits(tail, rest)
    ensures Fits(head + tail, Then(t, rest))
    ensures Includes(head + tail, Then(t, rest)) 
         == if t.Include? then [head[t.first..t.close]] + Includes(tail, rest) else Includes(tail, rest)
  {
    assert (head + tail)[|head|..] == tail;
    assert t.Include? ==> (head + tail)[t.first..t.close] == head[t.first..t.close];
  }

  lemma ReplacedFirst(path: string, more: seq<string>, target: string, replacement: string)
    ensures Replaced([path] + more, target, replacement)
         == [if path == target then replacement else path] + Replaced(more, target, replacement)
  {
    assert ([path] + more)[1..] == more;
  }

  /** Reading the rewritten text again gives the old list with the target replaced. */
  lemma RewrittenIncludes(s: string, target: string, replacement: string)
    requires Plain(replacement)
    ensures
      var ts := Lex(s, false);
      var u := Rewrite(s, ts, target, replacement);
      Includes(u, Lex(u, false)) == Replaced(Includes(s, ts), target, replacement)
  {
    RewrittenLexes(s, false, Lex(s, false), target, replacement);
    MovedIncludes(s, Lex(s, false), target, replacement);
  }

  lemma {:induction false} MovedBack(s: string, ts: Tokens, target: string, replacement: string)
    requires Fits(s, ts) && replacement !in Includes(s, ts)
    requires Fits(Rewrite(s, ts, target, replacement), AllMoved(s, ts, target, replacement))
    ensures Rewrite(Rewrite(s, ts, target, replacement), AllMoved(s, ts, target, replacement), replacement, target) == s
  {
    match ts
    case End =>
    case Then(t, rest) =>
      var head, tail := Head(s, t, target, replacement), Rewrite(s[t.Length()..], rest, target, replacement);
      var v := Moved(s, t, target, replacement);
      HeadShape(s, t, target, replacement);
      assert (head + tail)[|head|..] == tail;
      var more := Includes(s[t.Length()..], rest);
      assert forall p :: p in more ==> p in Includes(s, ts);
      MovedBack(s[t.Length()..], rest, target, replacement);
      HeadBack(s, t, target, replacement, tail);
      Halves(s, t.Length());
  }

  lemma HeadBack(s: string, t: Token, target: string, replacement: string, tail: string)
    requires TokenFits(s, t) && !Names(s, t, replacement)
    requires TokenFits(Head(s, t, target, replacement) + tail, Moved(s, t, target, replacement))
    ensures Head(Head(s, t, target, replacement) + tail, Moved(s, t, target, replacement), replacement, target)
      == s[..t.Length()]
  {
    var head, v := Head(s, t, target, replacement), Moved(s, t, target, replacement);
    HeadShape(s, t, target, replacement);
    if t.Include? {
      assert (head + tail)[v.first..v.close] == head[v.first..v.close];
      assert (head + tail)[..v.first] == s[..t.first];
      Thirds(s, t.first, t.close);
    }
    assert (head + tail)[..|head|] == head;
  }

  /** Rewriting back gives the text again, so nothing outside the replaced paths is touched. */
  lemma RewriteBack(s: string, target: string, replacement: string)
    requires Plain(replacement) && replacement !in Includes(s, Lex(s, false))
    ensures
      var u := Rewrite(s, Lex(s, false), target, replacement);
      Rewrite(u, Lex(u, false), replacement, target) == s
  {
    RewrittenLexes(s, false, Lex(s, false), target, replacement);
    MovedBack(s, Lex(s, false), target, replacement);
  }

  lemma {:induction false} NothingToRewrite(s: string, ts: Tokens, target: string, replacement: string)
    requires Fits(s, ts) && target !in Includes(s, ts)
    ensures Rewrite(s, ts, target, replacement) == s
  {
    match ts
    case End =>
    case Then(t, rest) =>
      var more := Includes(s[t.Length()..], rest);
      assert forall p :: p in more ==> p in Includes(s, ts);
      if t.Include? {
        assert Includes(s, ts)[0] == s[t.first..t.close];
      }
      NothingToRewrite(s[t.Length()..], rest, target, replacement);
      Halves(s, t.Length());
  }

  // ----- The program's loops

  datatype Span = Span(start: nat, end: nat)

  predicate AfterWordAt(source: string, i: nat)
    requires i <= |source|
  {
    i > 0 && IsWord(source[i - 1])
  }

  /** Where the paths naming the target stand. */
  function Spans(s: string, ts: Tokens, offset: nat, target: string): seq<Span>
    requires Fits(s, ts)
  {
    match ts
    case End => []
    case Then(t, rest) =>
      var more := Spans(s[t.Length()..], rest, offset + t.Length(), target);
      if Names(s, t, target) then [Span(offset + t.first, offset + t.close)] + more else more
  }

  function SpansFrom(source: string, i: nat, target: string): seq<Span>
    requires i <= |source|
  {
    Spans(source[i..], Lex(source[i..], AfterWordAt(source, i)), i, target)
  }

  predicate InOrder(spans: seq<Span>, last: nat, length: nat) {
    if spans == [] then last <= length
    else last <= spans[0].start <= spans[0].end <= length && InOrder(spans[1..], spans[0].end, length)
  }

  function Splice(source: string, last: nat, spans: seq<Span>, replacement: string): string
    requires InOrder(spans, last, |source|)
    decreases |spans|
  {
    if spans == [] then source[last..]
    else source[last..spans[0].start] + replacement + Splice(source, spans[0].end, spans[1..], replacement)
  }

  method LineComment(source: string, start: nat) returns (i: nat)
    requires start <= |source|
    ensures i == start + LineEnd(source[start..])
  {
    i := start;
    while i < |source| && source[i] != '\n'
      invariant start <= i <= |source|
      invariant start + LineEnd(source[start..]) == i + LineEnd(source[i..])
    {
      assert source[i..][1..] == source[i + 1..];
      i := i + 1;
    }
  }

  /** `start` is the position after the opening. */
  method BlockComment(source: string, start: nat) returns (i: nat)
    requires start <= |source|
    ensures i == start + BlockEnd(source[start..])
  {
    i := start;
    while i + 1 < |source| && !(source[i] == '*' && source[i + 1] == '/')
      invariant start <= i <= |source|
      invariant start + BlockEnd(source[start..]) == i + BlockEnd(source[i..])
    {
      assert source[i..][1..] == source[i + 1..];
      i := i + 1;
    }
    if i + 1 < |source| {
      i := i + 2;
    }
  }

  /** `start` is the position after the opening quote. An open string may be left one past the end. */
  method ClosingQuote(source: string, start: nat) returns (j: nat)
    requires start <= |source|
    ensures start <= j <= |source| + 1
    ensures start + Close(source[start..]) == if j < |source| then j else |source|
  {
    j := start;
    while j < |source|
      invariant start <= j <= |source| + 1
      invariant j <= |source| ==> start + Close(source[start..]) == j + Close(source[j..])
      invariant j > |source| ==> start + Close(source[start..]) == |source|
    {
      if source[j] == '\\' {
        assert j + 2 <= |source| ==> source[j..][2..] == source[j + 2..];
        j := j + 2;
        continue;
      }
      if source[j] == '"' {
        break;
      }
      assert source[j..][1..] == source[j + 1..];
      j := j + 1;
    }
  }

  method SkipBlanks(source: string, start: nat) returns (j: nat)
    requires start <= |source|
    ensures j == start + Blanks(source[start..])
  {
    j := start;
    while j < |source| && (source[j] == ' ' || source[j] == '\t' || source[j] == '\r' || source[j] == '\n')
      invariant start <= j <= |source|
      invariant start + Blanks(source[start..]) == j + Blanks(source[j..])
    {
      assert source[j..][1..] == source[j + 1..];
      j := j + 1;
    }
  }

  /** Where the path of an include directive at `i` stands. */
  method Directive(source: string, i: nat) returns (found: bool, path: Span)
    requires i < |source|
    ensures found == IsDirective(source[i..], AfterWordAt(source, i))
    ensures found ==> path.start <= path.end < |source| && path.start > i
    ensures found ==>
      var first := 8 + Blanks(source[i..][7..]);
      path.start == i + first && path.end == i + first + Close(source[i..][first..])
  {
    found, path := false, Span(0, 0);
    if i + 7 <= |source| && SpellsInclude(source[i..]) && (i == 0 || !IsWord(source[i - 1]))
      && (i + 7 == |source| || !IsWord(source[i + 7])) {
      var j := SkipBlanks(source, i + 7);
      assert source[i..][7..] == source[i + 7..];
      if j < |source| && source[j] == '"' {
        var close := ClosingQuote(source, j + 1);
        assert source[i..][j - i + 1..] == source[j + 1..];
        if close < |source| {
          found, path := true, Span(j + 1, close);
        }
      }
    }
  }

  function Within(i: nat, length: nat): nat {
    if i < length then i else length
  }

  lemma NextIsComment(s: string, afterWord: bool)
    requires s != "" && (s[0] == '#' || (s[0] == '/' && |s| > 1 && s[1] == '/'))
    ensures Next(s, afterWord) == Other(LineEnd(s))
  {
  }

  lemma NextIsBlock(s: string, afterWord: bool)
    requires |s| > 1 && s[0] == '/' && s[1] == '*'
    ensures Next(s, afterWord) == Other(2 + BlockEnd(s[2..]))
  {
  }

  lemma NextIsString(s: string, afterWord: bool)
    requires s != "" && s[0] == '"'
    ensures Next(s, afterWord) == Other(if Close(s[1..]) < |s| - 1 then Close(s[1..]) + 2 else |s|)
  {
  }

  lemma NextIsRest(s: string, afterWord: bool)
    requires s != "" && s[0] != '#' && s[0] != '"' && !(s[0] == '/' && |s| > 1 && (s[1] == '/' || s[1] == '*'))
    ensures Next(s, afterWord) ==
      if IsDirective(s, afterWord) then
        (var first := 8 + Blanks(s[7..]); Include(first, first + Close(s[first..])))
      else Other(1)
  {
  }

  /** One token of the scan: where the next one starts, and the path of an include directive. */
  method ScanToken(source: string, i: nat) returns (next: nat, found: bool, path: Span)
    requires i < |source|
    ensures i < next <= |source| + 1
    ensures !found ==> Next(source[i..], AfterWordAt(source, i)) == Other(Within(next, |source|) - i)
    ensures found ==>
      && i < path.start <= path.end < |source| && next == path.end + 1
      && Next(source[i..], AfterWordAt(source, i)) == Include(path.start - i, path.end - i)
  {
    hide Next, IsDirective, IsKeyword, SpellsInclude, IsWord, IsBlank, Close, Blanks, LineEnd, BlockEnd;
    ghost var s, afterWord := source[i..], AfterWordAt(source, i);
    found, path := false, Span(0, 0);
    if source[i] == '#' || (source[i] == '/' && i + 1 < |source| && source[i + 1] == '/') {
      next := LineComment(source, i);
      NextIsComment(s, afterWord);
    } else if source[i] == '/' && i + 1 < |source| && source[i + 1] == '*' {
      next := BlockComment(source, i + 2);
      assert s[2..] == source[i + 2..];
      NextIsBlock(s, afterWord);
    } else if source[i] == '"' {
      next := ClosingQuote(source, i + 1);
      if next < |source| {
        next := next + 1;
      }
      assert s[1..] == source[i + 1..];
      NextIsString(s, afterWord);
    } else {
      next, found, path := ScanRest(source, i);
    }
  }

  /** A directive, or one character that begins neither a comment nor a string. */
  method ScanRest(source: string, i: nat) returns (next: nat, found: bool, path: Span)
    requires i < |source| && source[i] != '#' && source[i] != '"'
    requires source[i] != '/' || i + 1 == |source| || (source[i + 1] != '/' && source[i + 1] != '*')
    ensures i < next <= |source|
    ensures !found ==> Next(source[i..], AfterWordAt(source, i)) == Other(next - i)
    ensures found ==>
      && i < path.start <= path.end < |source| && next == path.end + 1
      && Next(source[i..], AfterWordAt(source, i)) == Include(path.start - i, path.end - i)
  {
    hide Next, IsDirective, Close, Blanks;
    found, path := Directive(source, i);
    next := if found then path.end + 1 else i + 1;
    NextIsRest(source[i..], AfterWordAt(source, i));
  }

  lemma SpanStep(source: string, i: nat, t: Token, target: string)
    requires i < |source| && Next(source[i..], AfterWordAt(source, i)) == t
    ensures i + t.Length() <= |source|
    ensures SpansFrom(source, i, target) ==
      if Names(source[i..], t, target) then [Span(i + t.first, i + t.close)] + SpansFrom(source, i + t.Length(), target)
      else SpansFrom(source, i + t.Length(), target)
  {
    var s, afterWord := source[i..], AfterWordAt(source, i);
    LexFirst(s, afterWord, t);
    assert s[t.Length()..] == source[i + t.Length()..];
    assert After(s, t) == AfterWordAt(source, i + t.Length());
    SpansFirst(s, t, Lex(s[t.Length()..], After(s, t)), i, target);
  }

  lemma SpansFirst(s: string, t: Token, rest: Tokens, offset: nat, target: string)
    requires Fits(s, Then(t, rest))
    ensures Spans(s, Then(t, rest), offset, target) ==
      var more := Spans(s[t.Length()..], rest, offset + t.Length(), target);
      if Names(s, t, target) then [Span(offset + t.first, offset + t.close)] + more else more
  {
  }

  lemma {:induction false} SpansInOrder(s: string, ts: Tokens, offset: nat, target: string)
    requires Fits(s, ts)
    ensures InOrder(Spans(s, ts, offset, target), offset, offset + |s|)
  {
    match ts
    case End =>
    case Then(t, rest) =>
      SpansInOrder(s[t.Length()..], rest, offset + t.Length(), target);
      var more := Spans(s[t.Length()..], rest, offset + t.Length(), target);
      if Names(s, t, target) {
        InOrderFrom(more, offset + t.Length(), offset + t.close, offset + |s|);
        assert ([Span(offset + t.first, offset + t.close)] + more)[1..] == more;
      } else {
        InOrderFrom(more, offset + t.Length(), offset, offset + |s|);
      }
  }

  lemma InOrderFrom(spans: seq<Span>, last: nat, earlier: nat, length: nat)
    requires InOrder(spans, last, length) && earlier <= last
    ensures InOrder(spans, earlier, length)
  {
  }

  lemma {:induction false} SpliceIsRewrite(
    source: string, last: nat, i: nat, ts: Tokens, target: string, replacement: string)
    requires last <= i <= |source| && Fits(source[i..], ts)
    requires InOrder(Spans(source[i..], ts, i, target), last, |source|)
    ensures Splice(source, last, Spans(source[i..], ts, i, target), replacement)
         == source[last..i] + Rewrite(source[i..], ts, target, replacement)
    decreases ts
  {
    hide *;
    match ts
    case End =>
      SpliceNothing(source, last, i, target, replacement);
    case Then(t, rest) =>
      var s, next := source[i..], i + t.Length();
      NextFits(source, i, t, rest);
      SpansFirst(s, t, rest, i, target);
      RewriteFirst(s, t, rest, target, replacement);
      SpansInOrder(source[next..], rest, next, target);
      var more := Spans(source[next..], rest, next, target);
      if Names(s, t, target) {
        NamedIsInclude(s, t, target);
        InOrderFrom(more, next, i + t.close, |source|);
        SpliceIsRewrite(source, i + t.close, next, rest, target, replacement);
        SpliceNamed(source, last, i, t, more, Rewrite(source[next..], rest, target, replacement), replacement);
        NamedHead(s, t, target, replacement);
      } else {
        InOrderFrom(more, next, last, |source|);
        SpliceIsRewrite(source, last, next, rest, target, replacement);
        SpliceOther(source, last, i, t.Length(), Rewrite(source[next..], rest, target, replacement));
        UnnamedHead(s, t, target, replacement);
      }
  }

  lemma SpliceNothing(source: string, last: nat, i: nat, target: string, replacement: string)
    requires last <= i <= |source| && Fits(source[i..], End)
    requires InOrder(Spans(source[i..], End, i, target), last, |source|)
    ensures Splice(source, last, Spans(source[i..], End, i, target), replacement)
         == source[last..i] + Rewrite(source[i..], End, target, replacement)
  {
  }

  lemma NextFits(source: string, i: nat, t: Token, rest: Tokens)
    requires i <= |source| && Fits(source[i..], Then(t, rest))
    ensures TokenFits(source[i..], t) && 1 <= t.Length() && i + t.Length() <= |source|
    ensures source[i..][t.Length()..] == source[i + t.Length()..]
    ensures Fits(source[i + t.Length()..], rest) && i + |source[i..]| == |source|
    ensures i + t.Length() + |source[i + t.Length()..]| == |source|
  {
    assert source[i..][t.Length()..] == source[i + t.Length()..];
  }

  lemma NamedIsInclude(s: string, t: Token, target: string)
    requires TokenFits(s, t) && Names(s, t, target)
    ensures t.Include? && t.Length() == t.close + 1
  {
  }

  lemma NamedHead(s: string, t: Token, target: string, replacement: string)
    requires TokenFits(s, t) && Names(s, t, target)
    ensures t.Include? && Head(s, t, target, replacement) == s[..t.first] + replacement + "\""
  {
  }

  lemma UnnamedHead(s: string, t: Token, target: string, replacement: string)
    requires TokenFits(s, t) && !Names(s, t, target)
    ensures Head(s, t, target, replacement) == s[..t.Length()]
  {
  }

  lemma SpliceOther(source: string, last: nat, i: nat, n: nat, tail: string)
    requires last <= i && i + n <= |source|
    ensures source[last..i + n] + tail == source[last..i] + (source[i..][..n] + tail)
  {
    assert source[last..i + n] == source[last..i] + source[i..][..n];
  }

  lemma SpliceNamed(source: string, last: nat, i: nat, t: Token, more: seq<Span>, tail: string, replacement: string)
    requires last <= i <= |source| && t.Include? && TokenFits(source[i..], t)
    requires InOrder(more, i + t.close, |source|)
    requires Splice(source, i + t.close, more, replacement) == source[i + t.close..i + t.close + 1] + tail
    requires InOrder([Span(i + t.first, i + t.close)] + more, last, |source|)
    ensures Splice(source, last, [Span(i + t.first, i + t.close)] + more, replacement)
         == source[last..i] + (source[i..][..t.first] + replacement + "\"" + tail)
  {
    SpliceFirst(source, last, Span(i + t.first, i + t.close), more, replacement);
    SpliceOther(source, last, i, t.first, "");
    OneCharacter(source, i + t.close);
    Regroup(source[last..i], source[i..][..t.first], replacement, "\"", tail);
  }

  lemma SpliceFirst(source: string, last: nat, span: Span, more: seq<Span>, replacement: string)
    requires InOrder([span] + more, last, |source|)
    ensures InOrder(more, span.end, |source|)
    ensures Splice(source, last, [span] + more, replacement)
         == source[last..span.start] + replacement + Splice(source, span.end, more, replacement)
  {
    assert ([span] + more)[1..] == more;
  }

  lemma OneCharacter(s: string, i: nat)
    requires i < |s| && s[i] == '"'
    ensures s[i..i + 1] == "\""
  {
  }

  lemma Regroup(a: string, b: string, c: string, d: string, e: string)
    ensures ((a + (b + "")) + c) + (d + e) == a + (b + c + d + e)
    ensures a + (b + "") == a + b
  {
  }

  lemma {:induction false} FoundIsNamed(s: string, ts: Tokens, offset: nat, target: string)
    requires Fits(s, ts)
    ensures Spans(s, ts, offset, target) != [] <==> target in Includes(s, ts)
  {
    match ts
    case End =>
    case Then(t, rest) =>
      FoundIsNamed(s[t.Length()..], rest, offset + t.Length(), target);
  }

  method FindSpans(source: string, target: string) returns (matches: seq<Span>)
    ensures matches == Spans(source, Lex(source, false), 0, target)
  {
    hide Lex, Next, Spans;
    matches := [];
    var i := 0;
    while i < |source|
      invariant i <= |source| + 1
      invariant SpansFrom(source, 0, target) == matches + SpansFrom(source, Within(i, |source|), target)
    {
      var next, found, path := ScanToken(source, i);
      if found {
        FoundStep(source, i, path, target, matches);
      } else {
        SpanStep(source, i, Other(Within(next, |source|) - i), target);
      }
      if found && source[path.start..path.end] == target {
        matches := matches + [path];
      }
      i := next;
    }
    assert source[0..] == source;
    NoSpansLeft(source, target);
  }

  lemma NoSpansLeft(source: string, target: string)
    ensures SpansFrom(source, |source|, target) == []
  {
    LexNothing(source[|source|..], AfterWordAt(source, |source|));
  }

  lemma FoundStep(source: string, i: nat, path: Span, target: string, matches: seq<Span>)
    requires i < path.start <= path.end < |source|
    requires Next(source[i..], AfterWordAt(source, i)) == Include(path.start - i, path.end - i)
    ensures matches + SpansFrom(source, i, target) ==
      (if source[path.start..path.end] == target then matches + [path] else matches)
        + SpansFrom(source, path.end + 1, target)
  {
    hide Lex, Next, Spans;
    SpanStep(source, i, Include(path.start - i, path.end - i), target);
    assert source[i..][path.start - i..path.end - i] == source[path.start..path.end];
  }

  /** Rewrites the paths of the active include directives that name the target, and says whether there is one. */
  method ReplaceActiveBirdInclude(
    source: string, target: string, replacement: string) returns (out: string, found: bool)
    ensures out == Rewrite(source, Lex(source, false), target, replacement)
    ensures found <==> target in Includes(source, Lex(source, false))
  {
    var matches := FindSpans(source, target);
    ghost var ts := Lex(source, false);
    FoundIsNamed(source, ts, 0, target);
    if |matches| == 0 {
      NothingToRewrite(source, ts, target, replacement);
      return source, false;
    }
    assert source[0..] == source;
    SpansInOrder(source, ts, 0, target);
    SpliceIsRewrite(source, 0, 0, ts, target, replacement);
    out := SpliceAll(source, matches, replacement);
    found := true;
  }

  method SpliceAll(source: string, matches: seq<Span>, replacement: string) returns (out: string)
    requires InOrder(matches, 0, |source|)
    ensures out == Splice(source, 0, matches, replacement)
  {
    hide Splice, InOrder;
    out := "";
    var last: nat := 0;
    SpliceStarts(source, matches, replacement);
    for k := 0 to |matches|
      invariant last <= |source| && InOrder(matches[k..], last, |source|)
      invariant Splice(source, 0, matches, replacement) == out + Splice(source, last, matches[k..], replacement)
    {
      SpliceStep(source, last, matches, k, out, replacement);
      out := out + source[last..matches[k].start];
      out := out + replacement;
      last := matches[k].end;
    }
    assert matches[|matches|..] == [];
    SpliceEnds(source, last, replacement);
    out := out + source[last..];
  }

  lemma SpliceStarts(source: string, matches: seq<Span>, replacement: string)
    requires InOrder(matches, 0, |source|)
    ensures InOrder(matches[0..], 0, |source|)
    ensures Splice(source, 0, matches, replacement) == "" + Splice(source, 0, matches[0..], replacement)
  {
    assert matches[0..] == matches;
    hide Splice;
    var all := Splice(source, 0, matches, replacement);
    assert "" + all == all;
  }

  lemma SpliceEnds(source: string, last: nat, replacement: string)
    requires last <= |source|
    ensures InOrder([], last, |source|) && Splice(source, last, [], replacement) == source[last..]
  {
  }

  lemma SpliceStep(source: string, last: nat, matches: seq<Span>, k: nat, out: string, replacement: string)
    requires k < |matches| && InOrder(matches[k..], last, |source|)
    ensures last <= matches[k].start <= matches[k].end <= |source|
      && InOrder(matches[k + 1..], matches[k].end, |source|)
    ensures out + Splice(source, last, matches[k..], replacement)
         == out + source[last..matches[k].start] + replacement
           + Splice(source, matches[k].end, matches[k + 1..], replacement)
  {
    var more := matches[k + 1..];
    assert matches[k..] == [matches[k]] + more;
    SpliceFirst(source, last, matches[k], more, replacement);
    hide Splice;
    var before, tail := source[last..matches[k].start], Splice(source, matches[k].end, more, replacement);
    Associates(out, before + replacement, tail);
    Associates(out, before, replacement);
  }
}
