/**
 * Scanning of braces, quotes and comments in configuration fragments (src/bird-source.ts,
 * src/bird-policy-resources.ts).
 */
module BlockScanner {
  import opened Text
  import opened Wrappers

  // ----- The scanner, character by character

  /** `Slash` is code after a slash; `Escape` is a quote after a backslash; `Star` is a block comment after a star. */
  datatype Mode = Code | Slash | Quote(q: char) | Escape(q: char) | Line | Block | Star

  predicate InCode(m: Mode) {
    m.Code? || m.Slash?
  }

  predicate InBlock(m: Mode) {
    m.Block? || m.Star?
  }

  function FromCode(c: char): Mode {
    if c == '"' || c == '\'' then Quote(c)
    else if c == '#' then Line
    else if c == '/' then Slash
    else Code
  }

  function NextMode(m: Mode, c: char): Mode {
    match m
    case Code => FromCode(c)
    case Slash => if c == '*' then Block else FromCode(c)
    case Quote(q) => if c == '\\' then Escape(q) else if c == q then Code else m
    case Escape(q) => Quote(q)
    case Line => if c == '\n' then Code else Line
    case Block => if c == '*' then Star else Block
    case Star => if c == '/' then Code else if c == '*' then Star else Block
  }

  function NextDepth(m: Mode, depth: int, c: char): int {
    if !InCode(m) then depth
    else if c == '{' then depth + 1
    else if c == '}' then depth - 1
    else depth
  }

  datatype Reached = Stopped(end: nat, depth: int) | Ended(mode: Mode, depth: int)

  predicate Stops(m: Mode, depth: int, floor: int, c: char) {
    InCode(m) && c == '}' && depth - 1 <= floor
  }

  /** Scans up to the brace that brings the depth down to the floor, or to the end; `s` starts at position `at`. */
  function Walk(m: Mode, depth: int, floor: int, s: string, at: nat): Reached
    decreases s
  {
    if s == "" then Ended(m, depth)
    else if Stops(m, depth, floor, s[0]) then Stopped(at + 1, depth - 1)
    else Walk(NextMode(m, s[0]), NextDepth(m, depth, s[0]), floor, s[1..], at + 1)
  }

  /** A fragment closes only what it opens, and all of it. It may end in a line comment. */
  predicate Accepted(source: string) {
    var end := Walk(Code, 0, -1, source, 0);
    end.Ended? && (InCode(end.mode) || end.mode.Line?) && end.depth == 0
  }

  lemma WalkFirst(m: Mode, depth: int, floor: int, c: char, s: string, at: nat)
    requires !Stops(m, depth, floor, c)
    ensures Walk(m, depth, floor, [c] + s, at) == Walk(NextMode(m, c), NextDepth(m, depth, c), floor, s, at + 1)
  {
    assert ([c] + s)[1..] == s;
  }

  lemma {:induction false} WalkAppend(m: Mode, depth: int, floor: int, a: string, b: string, at: nat)
    requires Walk(m, depth, floor, a, at).Ended?
    ensures
      var middle := Walk(m, depth, floor, a, at);
      Walk(m, depth, floor, a + b, at) == Walk(middle.mode, middle.depth, floor, b, at + |a|)
    decreases a
  {
    if a == "" {
      assert a + b == b;
    } else {
      assert (a + b)[0] == a[0] && (a + b)[1..] == a[1..] + b;
      WalkAppend(NextMode(m, a[0]), NextDepth(m, depth, a[0]), floor, a[1..], b, at + 1);
    }
  }

  /** Only the distance to the floor matters, and the position only for where the walk stops. */
  lemma {:induction false} WalkShift(m: Mode, depth: int, floor: int, s: string, at: nat, lift: int, start: nat)
    requires Walk(m, depth, floor, s, at).Ended?
    ensures
      var end := Walk(m, depth, floor, s, at);
      Walk(m, depth + lift, floor + lift, s, start) == Ended(end.mode, end.depth + lift)
    decreases s
  {
    if s != "" {
      WalkShift(NextMode(m, s[0]), NextDepth(m, depth, s[0]), floor, s[1..], at + 1, lift, start + 1);
    }
  }

  // ----- Indentation

  function Spaces(n: nat): (blanks: string)
    ensures |blanks| == n && forall c :: c in blanks ==> c == ' '
  {
    if n == 0 then "" else " " + Spaces(n - 1)
  }

  function Prefixed(lines: seq<string>, indentation: string): seq<string> {
    seq(|lines|, i requires 0 <= i < |lines| => indentation + lines[i])
  }

  function JoinLines(lines: seq<string>): string
    requires |lines| > 0
  {
    if |lines| == 1 then lines[0] else lines[0] + "\n" + JoinLines(lines[1..])
  }

  function IndentBirdBlock(source: string, spaces: nat): string {
    if source == "" then "" else JoinLines(Prefixed(Split(source, '\n'), Spaces(spaces))) + "\n"
  }

  lemma {:induction false} SplitOfJoined(lines: seq<string>)
    requires lines != [] && forall line :: line in lines ==> '\n' !in line
    ensures Split(JoinLines(lines) + "\n", '\n') == lines + [""]
  {
    var head := lines[0];
    assert head in lines;
    if |lines| == 1 {
      SplitHead(head, '\n', "");
      assert head + "\n" == head + ['\n'] + "" && lines == [head];
    } else {
      var tail := JoinLines(lines[1..]) + "\n";
      SplitOfJoined(lines[1..]);
      SplitHead(head, '\n', tail);
      assert JoinLines(lines) + "\n" == head + ['\n'] + tail;
      assert [head] + (lines[1..] + [""]) == lines + [""];
    }
  }

  lemma {:induction false} LinesAreWhole(s: string)
    ensures forall line :: line in Split(s, '\n') ==> '\n' !in line
  {
    if s != "" {
      LinesAreWhole(s[1..]);
      var rest := Split(s[1..], '\n');
      assert rest[0] in rest && forall line :: line in rest[1..] ==> line in rest;
    }
  }

  /** Every line of the block is the line of the source behind as many blanks as asked. */
  lemma IndentedLines(source: string, spaces: nat)
    requires source != ""
    ensures
      var lines, indented := Split(source, '\n'), Split(IndentBirdBlock(source, spaces), '\n');
      && |indented| == |lines| + 1 && indented[|lines|] == ""
      && forall i :: 0 <= i < |lines| ==> indented[i] == Spaces(spaces) + lines[i]
  {
    var lines, blanks := Split(source, '\n'), Spaces(spaces);
    LinesAreWhole(source);
    hide Split, Spaces;
    forall line | line in Prefixed(lines, blanks)
      ensures '\n' !in line
    {
      var i :| 0 <= i < |lines| && line == blanks + lines[i];
      assert lines[i] in lines;
      BlanksEndNoLine(spaces);
    }
    SplitOfJoined(Prefixed(lines, blanks));
  }

  lemma BlanksEndNoLine(n: nat)
    ensures '\n' !in Spaces(n)
  {
  }

  /** The text with blanks inserted after every newline. */
  function Inserted(s: string, blanks: string): string {
    if s == "" then ""
    else if s[0] == '\n' then "\n" + blanks + Inserted(s[1..], blanks)
    else [s[0]] + Inserted(s[1..], blanks)
  }

  lemma {:induction false} IndentInserts(s: string, blanks: string)
    ensures JoinLines(Prefixed(Split(s, '\n'), blanks)) == blanks + Inserted(s, blanks)
  {
    if s == "" {
      assert blanks + "" == blanks;
    } else {
      IndentInserts(s[1..], blanks);
      var more := Split(s[1..], '\n');
      if s[0] == '\n' {
        JoinNext(more, blanks);
        assert blanks + "\n" + (blanks + Inserted(s[1..], blanks))
          == blanks + ("\n" + blanks + Inserted(s[1..], blanks));
      } else {
        FirstGrown(blanks, [s[0]], more[0], more[1..], Inserted(s[1..], blanks));
        assert [more[0]] + more[1..] == more;
      }
    }
  }

  lemma JoinNext(more: seq<string>, blanks: string)
    requires |more| > 0
    ensures JoinLines(Prefixed([""] + more, blanks)) == blanks + "\n" + JoinLines(Prefixed(more, blanks))
  {
    assert Prefixed([""] + more, blanks)[1..] == Prefixed(more, blanks);
    assert blanks + "" == blanks;
  }

  lemma FirstGrown(blanks: string, c: string, first: string, more: seq<string>, tail: string)
    requires JoinLines(Prefixed([first] + more, blanks)) == blanks + tail
    ensures JoinLines(Prefixed([c + first] + more, blanks)) == blanks + (c + tail)
  {
    var short, long := Prefixed([first] + more, blanks), Prefixed([c + first] + more, blanks);
    assert short[0] == blanks + first && long[0] == blanks + (c + first);
    if more == [] {
      assert tail == (blanks + tail)[|blanks|..] == (blanks + first)[|blanks|..] == first;
    } else {
      assert short[1..] == long[1..];
      Regrouped(blanks, c, first, "\n" + JoinLines(short[1..]), tail);
    }
  }

  lemma Regrouped(a: string, c: string, b: string, rest: string, tail: string)
    requires a + b + rest == a + tail
    ensures a + (c + b) + rest == a + (c + tail)
  {
    assert a + b + rest == a + (b + rest);
    assert tail == (a + tail)[|a|..] == (a + (b + rest))[|a|..] == b + rest;
  }

  predicate AfterNewline(m: Mode) {
    m.Code? || m.Quote? || m.Block?
  }

  predicate RealQuote(m: Mode) {
    m.Quote? || m.Escape? ==> m.q == '"' || m.q == '\''
  }

  lemma {:induction false} BlanksKeepState(m: Mode, depth: int, floor: int, n: nat, at: nat)
    requires AfterNewline(m) && RealQuote(m)
    ensures Walk(m, depth, floor, Spaces(n), at) == Ended(m, depth)
  {
    if n > 0 {
      WalkFirst(m, depth, floor, ' ', Spaces(n - 1), at);
      BlanksKeepState(m, depth, floor, n - 1, at + 1);
    }
  }

  /** Wherever it stands, a newline may be followed by any number of blanks without changing the scan. */
  lemma {:induction false} InsertionKeepsScan(m: Mode, depth: int, floor: int, s: string, n: nat, at: nat, start: nat)
    requires RealQuote(m) && Walk(m, depth, floor, s, at).Ended?
    ensures Walk(m, depth, floor, Inserted(s, Spaces(n)), start) == Walk(m, depth, floor, s, at)
    decreases s
  {
    if s != "" {
      var mode, level := NextMode(m, s[0]), NextDepth(m, depth, s[0]);
      var rest := Inserted(s[1..], Spaces(n));
      if s[0] == '\n' {
        InsertionKeepsScan(mode, level, floor, s[1..], n, at + 1, start + 1 + |Spaces(n)|);
        BlanksKeepState(mode, level, floor, n, start + 1);
        WalkAppend(mode, level, floor, Spaces(n), rest, start + 1);
        assert "\n" + Spaces(n) + rest == ['\n'] + (Spaces(n) + rest);
        WalkFirst(m, depth, floor, '\n', Spaces(n) + rest, start);
      } else {
        InsertionKeepsScan(mode, level, floor, s[1..], n, at + 1, start + 1);
        WalkFirst(m, depth, floor, s[0], rest, start);
      }
    }
  }

  /** An accepted fragment, indented, brings the scanner back to code at the depth it started from. */
  lemma IndentedIsNeutral(source: string, spaces: nat)
    requires Accepted(source)
    ensures Walk(Code, 0, -1, IndentBirdBlock(source, spaces), 0) == Ended(Code, 0)
  {
    if source != "" {
      var blanks := Spaces(spaces);
      var body := blanks + Inserted(source, blanks);
      IndentInserts(source, blanks);
      InsertionKeepsScan(Code, 0, -1, source, spaces, 0, |blanks|);
      BlanksKeepState(Code, 0, -1, spaces, 0);
      WalkAppend(Code, 0, -1, blanks, Inserted(source, blanks), 0);
      WalkAppend(Code, 0, -1, body, "\n", 0);
    }
  }

  /** A wrapped fragment is closed exactly by the brace of its wrapper, whatever follows. */
  lemma WrapperClosesAtItsBrace(source: string, spaces: nat, margin: nat, tail: string, at: nat)
    requires Accepted(source)
    ensures
      var wrapped := "{\n" + IndentBirdBlock(source, spaces) + Spaces(margin) + "}";
      Walk(Code, 0, 0, wrapped + tail, at) == Stopped(at + |wrapped|, 0)
  {
    hide Walk, IndentBirdBlock, Spaces, Accepted;
    var body, blanks := IndentBirdBlock(source, spaces), Spaces(margin);
    var rest := "}" + tail;
    IndentedIsNeutral(source, spaces);
    WalkShift(Code, 0, -1, body, 0, 1, at + 2);
    WalkAppend(Code, 1, 0, body, blanks + rest, at + 2);
    BlanksKeepState(Code, 1, 0, margin, at + 2 + |body|);
    WalkAppend(Code, 1, 0, blanks, rest, at + 2 + |body|);
    WalkOpening(body + (blanks + rest), at);
    WalkClosing(tail, at + 2 + |body| + |blanks|);
    Associates("{\n" + body + blanks, "}", tail);
    Associates("{\n" + body, blanks, rest);
    Associates("{\n", body, blanks + rest);
  }

  lemma WalkOpening(s: string, at: nat)
    ensures Walk(Code, 0, 0, "{\n" + s, at) == Walk(Code, 1, 0, s, at + 2)
  {
    WalkFirst(Code, 1, 0, '\n', s, at + 1);
    WalkFirst(Code, 0, 0, '{', ['\n'] + s, at);
    assert "{\n" + s == ['{'] + (['\n'] + s);
  }

  lemma WalkClosing(tail: string, at: nat)
    ensures Walk(Code, 1, 0, "}" + tail, at) == Stopped(at + 1, 0)
  {
    assert ("}" + tail)[0] == '}';
  }

  // ----- The cursor loops

  datatype ScanError = TooLong | NullCharacter | UnclosedComment | ExtraBrace | Unfinished

  function Judged(end: Reached): Option<ScanError> {
    match end
    case Stopped(_, _) => Some(ExtraBrace)
    case Ended(m, depth) =>
      if InBlock(m) then Some(UnclosedComment)
      else if (InCode(m) || m.Line?) && depth == 0 then None
      else Some(Unfinished)
  }

  function FoundEnd(end: Reached): Result<nat, ScanError> {
    match end
    case Stopped(position, depth) => if depth == 0 then Ok(position) else Err(ExtraBrace)
    case Ended(m, _) => Err(if InBlock(m) then UnclosedComment else Unfinished)
  }

  /** Two ends that both loops treat alike: code after a slash is like code, a quote after a backslash like a quote. */
  predicate Alike(a: Reached, b: Reached) {
    a == b
    || (a.Ended? && b.Ended? && a.depth == b.depth && Plain(a.mode) == Plain(b.mode)
      && InBlock(a.mode) == InBlock(b.mode))
  }

  predicate Plain(m: Mode) {
    InCode(m) || m.Line?
  }

  function From(s: string, i: nat): string {
    if i <= |s| then s[i..] else ""
  }

  lemma SlashIsCode(depth: int, floor: int, s: string, at: nat)
    requires s != "" && s[0] == '/' && (|s| > 1 ==> s[1] != '*')
    ensures Alike(Walk(Code, depth, floor, s, at), Walk(Code, depth, floor, s[1..], at + 1))
  {
  }

  method IndexOfNewline(source: string, from: nat) returns (n: Option<nat>)
    requires from <= |source|
    ensures n == Offset(from, FirstNewline(source[from..]))
  {
    var i := from;
    while i < |source| && source[i] != '\n'
      invariant from <= i <= |source|
      invariant Offset(from, FirstNewline(source[from..])) == Offset(i, FirstNewline(source[i..]))
    {
      assert source[i..][1..] == source[i + 1..];
      i := i + 1;
    }
    n := if i < |source| then Some(i) else None;
  }

  method IndexOfCommentEnd(source: string, from: nat) returns (n: Option<nat>)
    requires from <= |source|
    ensures n == Offset(from, FirstCommentEnd(source[from..]))
  {
    var i := from;
    while i + 1 < |source| && !(source[i] == '*' && source[i + 1] == '/')
      invariant from <= i <= |source|
      invariant Offset(from, FirstCommentEnd(source[from..])) == Offset(i, FirstCommentEnd(source[i..]))
    {
      assert source[i..][1..] == source[i + 1..];
      i := i + 1;
    }
    n := if i + 1 < |source| then Some(i) else None;
  }

  function Offset(base: nat, n: Option<nat>): Option<nat> {
    if n.Some? then Some(base + n.value) else None
  }

  function FirstNewline(s: string): (n: Option<nat>)
    ensures n.Some? ==> n.value < |s|
  {
    if s == "" then None else if s[0] == '\n' then Some(0) else Offset(1, FirstNewline(s[1..]))
  }

  function FirstCommentEnd(s: string): (n: Option<nat>)
    ensures n.Some? ==> n.value + 1 < |s|
  {
    if |s| < 2 then None else if s[0] == '*' && s[1] == '/' then Some(0) else Offset(1, FirstCommentEnd(s[1..]))
  }

  lemma {:induction false} LineSkipped(depth: int, floor: int, s: string, at: nat)
    ensures
      var n := FirstNewline(s);
      if n.Some? then Walk(Line, depth, floor, s, at) == Walk(Code, depth, floor, s[n.value + 1..], at + n.value + 1)
      else Walk(Line, depth, floor, s, at) == Ended(Line, depth)
    decreases s
  {
    if s != "" && s[0] != '\n' {
      LineSkipped(depth, floor, s[1..], at + 1);
    }
  }

  lemma BlockStep(m: Mode, depth: int, floor: int, s: string, at: nat)
    requires InBlock(m) && s != ""
    ensures Walk(m, depth, floor, s, at) == Walk(NextMode(m, s[0]), depth, floor, s[1..], at + 1)
    ensures FirstCommentEnd(s)
      == if |s| > 1 && s[0] == '*' && s[1] == '/' then Some(0) else Offset(1, FirstCommentEnd(s[1..]))
  {
  }

  lemma {:induction false} BlockSkipped(m: Mode, depth: int, floor: int, s: string, at: nat)
    requires InBlock(m)
    ensures
      var n := FirstCommentEnd(s);
      var end := Walk(m, depth, floor, s, at);
      if m.Star? && s != "" && s[0] == '/' then end == Walk(Code, depth, floor, s[1..], at + 1)
      else if n.Some? then end == Walk(Code, depth, floor, s[n.value + 2..], at + n.value + 2)
      else end.Ended? && InBlock(end.mode)
    decreases s
  {
    if s == "" {
      return;
    }
    BlockStep(m, depth, floor, s, at);
    hide Walk, FirstCommentEnd;
    if !(m.Star? && s[0] == '/') {
      var rest := FirstCommentEnd(s[1..]);
      BlockSkipped(NextMode(m, s[0]), depth, floor, s[1..], at + 1);
      assert rest.Some? ==> s[1..][rest.value + 2..] == s[rest.value + 3..];
      assert |s| > 1 ==> s[1..][1..] == s[2..];
    }
  }

  function ModeOf(quote: Option<char>): Mode {
    if quote.Some? then Quote(quote.value) else Code
  }

  /** What one turn of either loop does to its variables, when it does not end there. */
  datatype Turn = Turn(cursor: nat, depth: int, quote: Option<char>)

  predicate Follows(before: Reached, turn: Turn, floor: int, source: string) {
    Alike(before, Walk(ModeOf(turn.quote), turn.depth, floor, From(source, turn.cursor), turn.cursor))
  }

  lemma QuoteTurn(source: string, at: nat, depth: int, quote: char, floor: int)
    requires at < |source|
    ensures
      var c := source[at];
      Follows(Walk(Quote(quote), depth, floor, source[at..], at),
        if c == '\\' then Turn(at + 2, depth, Some(quote))
        else Turn(at + 1, depth, if c == quote then None else Some(quote)), floor, source)
  {
    assert source[at..][1..] == source[at + 1..];
    if at + 1 < |source| {
      assert source[at + 1..][1..] == source[at + 2..];
    }
  }

  lemma OneFirst(source: string, at: nat)
    requires at < |source|
    ensures source[at..] == [source[at]] + source[at + 1..]
  {
  }

  lemma TwoFirst(source: string, at: nat)
    requires at + 1 < |source|
    ensures source[at..] == [source[at]] + source[at + 1..] && source[at + 1..] == [source[at + 1]] + source[at + 2..]
  {
  }

  lemma DropTwice(s: string, a: nat, b: nat)
    requires a + b <= |s|
    ensures s[a..][b..] == s[a + b..]
  {
  }

  lemma WalkNothing(m: Mode, depth: int, floor: int, at: nat)
    ensures Walk(m, depth, floor, "", at) == Ended(m, depth)
  {
  }

  lemma LineTurn(source: string, at: nat, depth: int, floor: int)
    requires at < |source| && source[at] == '#'
    ensures
      var newline := Offset(at + 1, FirstNewline(source[at + 1..]));
      Follows(Walk(Code, depth, floor, source[at..], at),
        Turn(if newline.Some? then newline.value + 1 else |source| + 1, depth, None), floor, source)
  {
    hide Walk;
    OneFirst(source, at);
    WalkFirst(Code, depth, floor, source[at], source[at + 1..], at);
    LineSkipped(depth, floor, source[at + 1..], at + 1);
    var n := FirstNewline(source[at + 1..]);
    if n.Some? {
      DropTwice(source, at + 1, n.value + 1);
    } else {
      WalkNothing(Code, depth, floor, |source| + 1);
    }
  }

  /** The walk through the body of a block comment, by positions in the source. */
  lemma BlockBody(source: string, from: nat, depth: int, floor: int)
    requires from <= |source|
    ensures
      var end := Offset(from, FirstCommentEnd(source[from..]));
      var before := Walk(Block, depth, floor, source[from..], from);
      if end.Some? then
        end.value + 2 <= |source| && before == Walk(Code, depth, floor, source[end.value + 2..], end.value + 2)
      else before.Ended? && InBlock(before.mode)
  {
    hide Walk;
    BlockSkipped(Block, depth, floor, source[from..], from);
    var n := FirstCommentEnd(source[from..]);
    if n.Some? {
      DropTwice(source, from, n.value + 2);
    }
  }

  lemma BlockTurn(source: string, at: nat, depth: int, floor: int)
    requires at + 1 < |source| && source[at] == '/' && source[at + 1] == '*'
    ensures
      var end := Offset(at + 2, FirstCommentEnd(source[at + 2..]));
      var before := Walk(Code, depth, floor, source[at..], at);
      if end.Some? then Follows(before, Turn(end.value + 2, depth, None), floor, source)
      else before.Ended? && InBlock(before.mode)
  {
    hide Walk, FirstCommentEnd;
    TwoFirst(source, at);
    WalkFirst(Code, depth, floor, '/', source[at + 1..], at);
    WalkFirst(Slash, depth, floor, '*', source[at + 2..], at + 1);
    BlockBody(source, at + 2, depth, floor);
  }

  lemma CodeTurn(source: string, at: nat, depth: int, floor: int)
    requires at < |source| && source[at] != '#' && !Stops(Code, depth, floor, source[at])
    requires source[at] == '/' && at + 1 < |source| ==> source[at + 1] != '*'
    ensures
      var c := source[at];
      Follows(Walk(Code, depth, floor, source[at..], at),
        Turn(at + 1, NextDepth(Code, depth, c), if c == '"' || c == '\'' then Some(c) else None), floor, source)
  {
    assert source[at..][1..] == source[at + 1..];
    if source[at] == '/' {
      SlashIsCode(depth, floor, source[at..], at);
    }
  }

  /** One turn of the loop that both scanners share. `open` tells of a block comment without end. */
  method ScanTurn(source: string, turn: Turn, ghost floor: int) returns (next: Turn, open: bool)
    requires turn.cursor < |source| && !Stops(ModeOf(turn.quote), turn.depth, floor, source[turn.cursor])
    ensures next.cursor > turn.cursor
    ensures !open ==> next.depth == NextDepth(ModeOf(turn.quote), turn.depth, source[turn.cursor])
    ensures
      var before := Walk(ModeOf(turn.quote), turn.depth, floor, source[turn.cursor..], turn.cursor);
      if open then before.Ended? && InBlock(before.mode) else Follows(before, next, floor, source)
  {
    hide Walk, Follows, FirstNewline, FirstCommentEnd;
    var cursor, depth, quote := turn.cursor, turn.depth, turn.quote;
    var character := source[cursor];
    open := false;
    if quote.Some? {
      QuoteTurn(source, cursor, depth, quote.value, floor);
      if character == '\\' {
        cursor := cursor + 1;
      } else if character == quote.value {
        quote := None;
      }
    } else if character == '#' {
      LineTurn(source, cursor, depth, floor);
      var newline := IndexOfNewline(source, cursor + 1);
      cursor := if newline.None? then |source| else newline.value;
    } else if character == '/' && cursor + 1 < |source| && source[cursor + 1] == '*' {
      BlockTurn(source, cursor, depth, floor);
      var end := IndexOfCommentEnd(source, cursor + 2);
      if end.None? {
        return Turn(cursor + 1, depth, quote), true;
      }
      cursor := end.value + 1;
    } else {
      CodeTurn(source, cursor, depth, floor);
      if character == '"' || character == '\'' {
        quote := Some(character);
      }
      depth := if character == '{' then depth + 1 else if character == '}' then depth - 1 else depth;
    }
    next := Turn(cursor + 1, depth, quote);
  }

  lemma FollowsOn(end: Reached, turn: Turn, next: Turn, floor: int, source: string)
    requires turn.cursor < |source| && Follows(end, turn, floor, source)
    requires Follows(
      Walk(ModeOf(turn.quote), turn.depth, floor, source[turn.cursor..], turn.cursor), next, floor, source)
    ensures Follows(end, next, floor, source)
  {
    hide Walk;
  }

  // ----- The two scanners

  function WithoutCrLf(s: string): string {
    if s == "" then ""
    else if s[0] == '\r' && |s| > 1 && s[1] == '\n' then "\n" + WithoutCrLf(s[2..])
    else [s[0]] + WithoutCrLf(s[1..])
  }

  lemma {:induction false} NothingToConvert(s: string)
    requires '\r' !in s
    ensures WithoutCrLf(s) == s
  {
    if s != "" {
      NothingToConvert(s[1..]);
    }
  }

  /** A line end of two characters becomes one; nothing else of the line changes. */
  lemma {:induction false} LineEndsConverted(line: string, rest: string)
    requires '\r' !in line
    ensures WithoutCrLf(line + "\r\n" + rest) == line + "\n" + WithoutCrLf(rest)
  {
    if line == "" {
      assert ("\r\n" + rest)[2..] == rest && "" + "\r\n" + rest == "\r\n" + rest;
    } else {
      LineEndsConverted(line[1..], rest);
      assert (line + "\r\n" + rest)[1..] == line[1..] + "\r\n" + rest;
    }
  }

  /** A carriage return that ends no line stays. */
  lemma {:induction false} LoneReturnStays(line: string, rest: string)
    requires '\r' !in line && (rest == "" || rest[0] != '\n')
    ensures WithoutCrLf(line + "\r" + rest) == line + "\r" + WithoutCrLf(rest)
  {
    if line == "" {
      assert ("\r" + rest)[1..] == rest && "" + "\r" + rest == "\r" + rest;
    } else {
      LoneReturnStays(line[1..], rest);
      assert (line + "\r" + rest)[1..] == line[1..] + "\r" + rest;
    }
  }

  const MAX_SOURCE_LENGTH := 32 * 1024

  function SourceError(source: string): Option<ScanError> {
    if |source| > MAX_SOURCE_LENGTH then Some(TooLong)
    else if '\0' in source then Some(NullCharacter)
    else Judged(Walk(Code, 0, -1, source, 0))
  }

  method NormalizeBirdBlockSource(value: string) returns (result: Result<string, ScanError>)
    ensures
      var source := Trim(WithoutCrLf(value));
      result == match SourceError(source) { case Some(error) => Err(error) case None => Ok(source) }
    ensures result == Err(TooLong) <==> |Trim(WithoutCrLf(value))| > 32_768
    ensures result.Ok? ==> Accepted(result.value) && |result.value| <= 32_768 && '\0' !in result.value
  {
    var source := Trim(WithoutCrLf(value));
    if |source| > MAX_SOURCE_LENGTH {
      return Err(TooLong);
    }
    if '\0' in source {
      return Err(NullCharacter);
    }
    var turn := Turn(0, 0, None);
    ghost var end := Walk(Code, 0, -1, source, 0);
    assert source[0..] == source;
    while turn.cursor < |source|
      invariant turn.depth >= 0 && Follows(end, turn, -1, source)
      decreases |source| - turn.cursor
    {
      if turn.quote.None? && source[turn.cursor] == '}' && turn.depth == 0 {
        return Err(ExtraBrace);
      }
      var next, open := ScanTurn(source, turn, -1);
      if open {
        return Err(UnclosedComment);
      }
      FollowsOn(end, turn, next, -1, source);
      turn := next;
    }
    assert From(source, turn.cursor) == "";
    if turn.quote.Some? || turn.depth != 0 {
      return Err(Unfinished);
    }
    return Ok(source);
  }

  method FindDeclarationEnd(source: string, openingBrace: nat) returns (result: Result<nat, ScanError>)
    requires openingBrace < |source|
    ensures result == FoundEnd(Walk(Code, 0, 0, source[openingBrace..], openingBrace))
  {
    var turn := Turn(openingBrace, 0, None);
    ghost var end := Walk(Code, 0, 0, source[openingBrace..], openingBrace);
    while turn.cursor < |source|
      invariant Follows(end, turn, 0, source)
      decreases |source| - turn.cursor
    {
      if turn.quote.None? && source[turn.cursor] == '}' {
        if turn.depth - 1 == 0 {
          return Ok(turn.cursor + 1);
        }
        if turn.depth - 1 < 0 {
          return Err(ExtraBrace);
        }
      }
      var next, open := ScanTurn(source, turn, 0);
      if open {
        return Err(UnclosedComment);
      }
      FollowsOn(end, turn, next, 0, source);
      turn := next;
    }
    assert From(source, turn.cursor) == "";
    return Err(Unfinished);
  }

  // ----- A policy resource holds one declaration

  predicate BeginsTrivia(s: string) {
    s != "" && (IsSpace(s[0]) || s[0] == '#' || (s[0] == '/' && |s| > 1 && s[1] == '*'))
  }

  /** How many characters of blanks and comments a text begins with; none when a block comment stays open. */
  function Trivia(s: string): Option<nat>
    decreases |s|
  {
    if !BeginsTrivia(s) then Some(0)
    else if IsSpace(s[0]) then Offset(1, Trivia(s[1..]))
    else if s[0] == '#' then
      match FirstNewline(s[1..])
      case None => Some(|s|)
      case Some(n) => Offset(n + 2, Trivia(s[n + 2..]))
    else
      match FirstCommentEnd(s[2..])
      case None => None
      case Some(n) => Offset(n + 4, Trivia(s[n + 4..]))
  }

  function TriviaEnd(source: string, at: nat): Option<nat>
    requires at <= |source|
  {
    Offset(at, Trivia(source[at..]))
  }

  /** Skips the blanks and comments, in which the scanner stays in code, at the same depth. */
  method SkipBirdTrivia(source: string, start: nat) returns (result: Result<nat, ScanError>)
    requires start <= |source|
    ensures result == match TriviaEnd(source, start) { case Some(end) => Ok(end) case None => Err(UnclosedComment) }
    ensures result.Ok? ==>
      && start <= result.value <= |source| && !BeginsTrivia(source[result.value..])
      && Alike(Walk(Code, 0, -1, source[start..], start), Walk(Code, 0, -1, source[result.value..], result.value))
  {
    hide Walk, Follows, FirstNewline, FirstCommentEnd, IsSpace, Trivia;
    var cursor := start;
    ghost var end := Walk(Code, 0, -1, source[start..], start);
    FollowsSelf(source, start);
    while cursor < |source|
      invariant start <= cursor <= |source| && Follows(end, Turn(cursor, 0, None), -1, source)
      invariant TriviaEnd(source, start) == TriviaEnd(source, cursor)
      decreases |source| - cursor
    {
      if IsSpace(source[cursor]) {
        SpaceTurn(source, cursor);
        SpaceIsTrivia(source, cursor);
        FollowsOn(end, Turn(cursor, 0, None), Turn(cursor + 1, 0, None), -1, source);
        cursor := cursor + 1;
        continue;
      }
      if source[cursor] == '#' {
        LineTurn(source, cursor, 0, -1);
        LineIsTrivia(source, cursor);
        TriviaStops(source, |source|);
        var newline := IndexOfNewline(source, cursor + 1);
        PastEnd(source);
        var next := if newline.None? then |source| + 1 else newline.value + 1;
        FollowsOn(end, Turn(cursor, 0, None), Turn(next, 0, None), -1, source);
        cursor := if newline.None? then |source| else newline.value + 1;
        continue;
      }
      if source[cursor] == '/' && cursor + 1 < |source| && source[cursor + 1] == '*' {
        BlockTurn(source, cursor, 0, -1);
        BlockIsTrivia(source, cursor);
        var close := IndexOfCommentEnd(source, cursor + 2);
        if close.None? {
          return Err(UnclosedComment);
        }
        FollowsOn(end, Turn(cursor, 0, None), Turn(close.value + 2, 0, None), -1, source);
        cursor := close.value + 2;
        continue;
      }
      break;
    }
    FollowsIsAlike(end, source, cursor);
    TriviaStops(source, cursor);
    return Ok(cursor);
  }

  lemma TriviaOfComment(s: string)
    requires s != "" && !IsSpace(s[0])
    ensures s[0] == '#' ==>
      Trivia(s)
      == match FirstNewline(s[1..]) { case None => Some(|s|) case Some(n) => Offset(n + 2, Trivia(s[n + 2..])) }
    ensures s[0] == '/' && |s| > 1 && s[1] == '*' ==>
      Trivia(s) == match FirstCommentEnd(s[2..]) { case None => None case Some(n) => Offset(n + 4, Trivia(s[n + 4..])) }
  {
  }

  lemma SpaceIsTrivia(source: string, at: nat)
    requires at < |source| && IsSpace(source[at])
    ensures TriviaEnd(source, at) == TriviaEnd(source, at + 1)
  {
    DropTwice(source, at, 1);
  }

  lemma LineIsTrivia(source: string, at: nat)
    requires at < |source| && source[at] == '#' && !IsSpace(source[at])
    ensures
      var newline := Offset(at + 1, FirstNewline(source[at + 1..]));
      TriviaEnd(source, at) == if newline.Some? then TriviaEnd(source, newline.value + 1) else Some(|source|)
  {
    hide Trivia, IsSpace, FirstNewline;
    DropTwice(source, at, 1);
    TriviaOfComment(source[at..]);
    var n := FirstNewline(source[at + 1..]);
    if n.Some? {
      DropTwice(source, at, n.value + 2);
    }
  }

  lemma BlockIsTrivia(source: string, at: nat)
    requires at + 1 < |source| && source[at] == '/' && source[at + 1] == '*' && !IsSpace(source[at])
    ensures
      var end := Offset(at + 2, FirstCommentEnd(source[at + 2..]));
      TriviaEnd(source, at) == if end.Some? then TriviaEnd(source, end.value + 2) else None
  {
    hide Trivia, IsSpace, FirstCommentEnd;
    DropTwice(source, at, 2);
    TriviaOfComment(source[at..]);
    var n := FirstCommentEnd(source[at + 2..]);
    if n.Some? {
      DropTwice(source, at, n.value + 4);
    }
  }

  lemma TriviaStops(source: string, at: nat)
    requires at <= |source| && !BeginsTrivia(source[at..])
    ensures TriviaEnd(source, at) == Some(at)
  {
  }

  lemma FollowsSelf(source: string, at: nat)
    requires at <= |source|
    ensures Follows(Walk(Code, 0, -1, source[at..], at), Turn(at, 0, None), -1, source)
  {
  }

  lemma FollowsIsAlike(end: Reached, source: string, at: nat)
    requires at <= |source| && Follows(end, Turn(at, 0, None), -1, source)
    ensures Alike(end, Walk(Code, 0, -1, source[at..], at))
  {
  }

  lemma PastEnd(source: string)
    ensures forall end ::
      Follows(end, Turn(|source| + 1, 0, None), -1, source) <==> Follows(end, Turn(|source|, 0, None), -1, source)
  {
  }

  lemma SpaceTurn(source: string, at: nat)
    requires at < |source| && IsSpace(source[at])
    ensures Follows(Walk(Code, 0, -1, source[at..], at), Turn(at + 1, 0, None), -1, source)
  {
    CodeTurn(source, at, 0, -1);
  }

  /** Past the brace that ends the first block, the scanner is in code at depth zero. */
  lemma {:induction false} WalkPastBlock(m: Mode, depth: int, s: string, at: nat)
    requires Walk(m, depth, 0, s, at).Stopped? && Walk(m, depth, 0, s, at).depth == 0
    ensures
      var end := Walk(m, depth, 0, s, at).end;
      at < end <= at + |s| && Walk(m, depth, -1, s, at) == Walk(Code, 0, -1, s[end - at..], end)
    decreases s
  {
    if !Stops(m, depth, 0, s[0]) {
      WalkPastBlock(NextMode(m, s[0]), NextDepth(m, depth, s[0]), s[1..], at + 1);
      var end := Walk(m, depth, 0, s, at).end;
      assert s[1..][end - (at + 1)..] == s[end - at..];
    }
  }

  /** The check that nothing but trivia follows the declaration whose body opens at a position. */
  method InspectBody(source: string, openingBrace: nat) returns (result: Result<nat, ScanError>)
    requires openingBrace < |source|
    ensures
      var end := FoundEnd(Walk(Code, 0, 0, source[openingBrace..], openingBrace));
      && (result.Ok? ==> result == end)
      && (result.Ok? <==> end.Ok? && end.value <= |source| && TriviaEnd(source, end.value) == Some(|source|))
    ensures result.Ok? ==> Accepted(source[openingBrace..])
    ensures
      var end := FoundEnd(Walk(Code, 0, 0, source[openingBrace..], openingBrace));
      if end.Err? then result == end
      else if end.value <= |source| && TriviaEnd(source, end.value) == None then result == Err(UnclosedComment)
      else result.Err? ==> result == Err(Unfinished)
  {
    var end := FindDeclarationEnd(source, openingBrace);
    if end.Err? {
      return end;
    }
    var body := source[openingBrace..];
    WalkPastBlock(Code, 0, body, openingBrace);
    assert body[end.value - openingBrace..] == source[end.value..];
    var rest := SkipBirdTrivia(source, end.value);
    if rest.Err? || rest.value != |source| {
      return Err(if rest.Err? then rest.error else Unfinished);
    }
    assert source[|source|..] == "";
    WalkShift(Code, 0, -1, body, openingBrace, 0, 0);
    return end;
  }

  /** A fragment one scanner accepts, put into a block of any file, is closed for the other by that block's brace. */
  method WrapAndFind(before: string, fragment: string, spaces: nat, margin: nat, tail: string)
    returns (end: Result<nat, ScanError>, accepted: Result<string, ScanError>)
    ensures accepted.Ok? ==>
      end == Ok(|before + "{\n" + IndentBirdBlock(accepted.value, spaces) + Spaces(margin) + "}"|)
  {
    accepted := NormalizeBirdBlockSource(fragment);
    if accepted.Err? {
      return Err(accepted.error), accepted;
    }
    var wrapped := "{\n" + IndentBirdBlock(accepted.value, spaces) + Spaces(margin) + "}";
    var file := before + (wrapped + tail);
    WrapperClosesAtItsBrace(accepted.value, spaces, margin, tail, |before|);
    assert file[|before|..] == wrapped + tail;
    end := FindDeclarationEnd(file, |before|);
    assert before + "{\n" + IndentBirdBlock(accepted.value, spaces) + Spaces(margin) + "}" == before + wrapped;
  }
}
