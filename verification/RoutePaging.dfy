/** Paging of BIRD's route listing on the agent (agent/bird.go) and its reading (src/bird-runtime-parser.ts). */
module RoutePaging {
  import opened Wrappers

  /**
   * A line by the patterns it matches. The agent takes `Header` and `Foreign` lines for route headers; the
   * parser takes `Header` lines and those behind a reply code, and no header of the other address family.
   */
  datatype Line =
    | Header(prefix: string, summary: string)
    | Coded(prefix: string, summary: string)
    | Foreign(text: string)
    | Table(name: string)
    | Detail(text: string)
    | Blank
    | Noise
    | PagedMarker
    | TruncatedMarker

  datatype Route = Route(prefix: string, summary: string, details: seq<string>)

  datatype Parsed = Parsed(table: Option<string>, routes: seq<Route>, truncated: bool)

  datatype ParseError = InvalidLimit | InvalidOffset

  // ----- What a listing says

  /** A plain listing in which agent and parser see the same headers. */
  predicate Plain(lines: seq<Line>) {
    forall k :: 0 <= k < |lines| ==>
      lines[k].Header? || lines[k].Table? || lines[k].Detail? || lines[k].Blank? || lines[k].Noise?
  }

  function WithDetail(r: Route, text: string): Route {
    r.(details := r.details + [text])
  }

  /** Every route of a listing, each with the lines up to the next header. */
  function Routes(lines: seq<Line>): seq<Route> {
    if lines == [] then []
    else
      var earlier := Routes(lines[..|lines| - 1]);
      match lines[|lines| - 1]
      case Header(prefix, summary) => earlier + [Route(prefix, summary, [])]
      case Detail(text) =>
        if earlier == [] then [] else earlier[|earlier| - 1 := WithDetail(earlier[|earlier| - 1], text)]
      case _ => earlier
  }

  function LastTable(lines: seq<Line>): Option<string> {
    if lines == [] then None
    else if lines[|lines| - 1].Table? then Some(lines[|lines| - 1].name)
    else LastTable(lines[..|lines| - 1])
  }

  /** The texts of the detail lines, in order. */
  function Texts(lines: seq<Line>): seq<string> {
    if lines == [] then []
    else (if lines[0].Detail? then [lines[0].text] else []) + Texts(lines[1..])
  }

  function HeadersIn(lines: seq<Line>): nat {
    if lines == [] then 0 else (if lines[0].Header? then 1 else 0) + HeadersIn(lines[1..])
  }

  lemma {:induction false} PartsOfConcat(left: seq<Line>, right: seq<Line>)
    ensures Texts(left + right) == Texts(left) + Texts(right)
    ensures HeadersIn(left + right) == HeadersIn(left) + HeadersIn(right)
  {
    if left == [] {
      assert left + right == right;
    } else {
      assert (left + right)[1..] == left[1..] + right;
      PartsOfConcat(left[1..], right);
    }
  }

  lemma OneLine(init: seq<Line>, line: Line)
    ensures Texts(init + [line]) == Texts(init) + if line.Detail? then [line.text] else []
    ensures HeadersIn(init + [line]) == HeadersIn(init) + if line.Header? then 1 else 0
  {
    PartsOfConcat(init, [line]);
    assert [line][1..] == [];
    assert Texts([]) == [] && HeadersIn([]) == 0;
  }

  lemma {:induction false} RouteCount(lines: seq<Line>)
    ensures |Routes(lines)| == HeadersIn(lines)
  {
    if lines != [] {
      var init, line := lines[..|lines| - 1], lines[|lines| - 1];
      assert lines == init + [line];
      OneLine(init, line);
      RouteCount(init);
    }
  }

  lemma {:induction false} HeadersAfter(lines: seq<Line>, i: nat)
    requires i < |lines| && lines[i].Header?
    ensures HeadersIn(lines) >= HeadersIn(lines[..i]) + 1
    ensures (forall m :: i < m < |lines| ==> !lines[m].Header?) ==> HeadersIn(lines) == HeadersIn(lines[..i]) + 1
  {
    var init, line := lines[..|lines| - 1], lines[|lines| - 1];
    assert lines == init + [line];
    OneLine(init, line);
    if i < |init| {
      assert init[..i] == lines[..i];
      assert forall m :: i < m < |init| ==> init[m] == lines[m];
      HeadersAfter(init, i);
    } else {
      assert init == lines[..i];
    }
  }

  /** `j` is where the next header after the one at `i` stands, or the end. */
  predicate NextHeader(lines: seq<Line>, i: nat, j: nat) {
    && i < j <= |lines| && lines[i].Header?
    && (forall m :: i < m < j ==> !lines[m].Header?) && (j < |lines| ==> lines[j].Header?)
  }

  /** A route is its header and, in order, the texts of the detail lines up to the next header. */
  lemma {:induction false} RouteIs(lines: seq<Line>, i: nat, j: nat)
    requires NextHeader(lines, i, j)
    ensures
      var k := HeadersIn(lines[..i]);
      && k < |Routes(lines)|
      && Routes(lines)[k] == Route(lines[i].prefix, lines[i].summary, Texts(lines[i + 1..j]))
  {
    hide Texts, HeadersIn;
    var init, line := lines[..|lines| - 1], lines[|lines| - 1];
    assert lines == init + [line];
    OneLine(init, line);
    RouteCount(init);
    RouteCount(lines);
    if i == |init| {
      assert lines[..i] == init && lines[i + 1..j] == [];
      NoTexts();
    } else if j == |lines| {
      HeadersAfter(init, i);
      RouteIs(init, i, j - 1);
      assert init[..i] == lines[..i] && lines[i + 1..j] == init[i + 1..j - 1] + [line];
      OneLine(init[i + 1..j - 1], line);
    } else {
      LaterHeader(lines, i, j);
      RouteIs(init, i, j);
      assert init[..i] == lines[..i] && init[i + 1..j] == lines[i + 1..j];
    }
  }

  lemma NoTexts()
    ensures Texts([]) == []
  {
  }

  /** The route before the last header is not the last route any more. */
  lemma LaterHeader(lines: seq<Line>, i: nat, j: nat)
    requires i < j < |lines| && lines[i].Header? && lines[j].Header?
    ensures HeadersIn(lines[..|lines| - 1]) > HeadersIn(lines[..i])
    ensures !lines[|lines| - 1].Header? ==> HeadersIn(lines[..|lines| - 1]) > HeadersIn(lines[..i]) + 1
  {
    var init := lines[..|lines| - 1];
    assert init[..i] == lines[..i];
    HeadersAfter(init, i);
    if j < |init| {
      assert init[..j] == lines[..j] && lines[..j][..i] == lines[..i];
      HeadersAfter(init, j);
      HeadersAfter(lines[..j], i);
    }
  }

  /** The table is the last one named. */
  lemma {:induction false} TableIs(lines: seq<Line>, i: nat)
    requires i < |lines| && lines[i].Table? && forall m :: i < m < |lines| ==> !lines[m].Table?
    ensures LastTable(lines) == Some(lines[i].name)
  {
    if i < |lines| - 1 {
      TableIs(lines[..|lines| - 1], i);
    }
  }

  lemma {:induction false} NoTable(lines: seq<Line>)
    requires forall m :: 0 <= m < |lines| ==> !lines[m].Table?
    ensures LastTable(lines) == None
  {
    if lines != [] {
      NoTable(lines[..|lines| - 1]);
    }
  }

  /** The table is named before the first route. */
  predicate TableFirst(lines: seq<Line>) {
    forall i, j :: 0 <= i < j < |lines| && lines[i].Header? ==> !lines[j].Table?
  }

  function Min(a: nat, b: nat): nat {
    if a < b then a else b
  }

  function Page(routes: seq<Route>, offset: nat, limit: nat): seq<Route> {
    routes[Min(offset, |routes|)..Min(offset + limit, |routes|)]
  }

  function Expected(lines: seq<Line>, offset: nat, limit: nat): Parsed {
    var all := Routes(lines);
    Parsed(LastTable(lines), Page(all, offset, limit), |all| > offset + limit)
  }

  // ----- The parser

  /** The parser's variables; `done` holds the routes pushed so far. */
  datatype Reading = Reading(
    done: seq<Route>, current: Option<Route>, table: Option<string>, truncated: bool, count: nat, skip: nat)
  {
    function Pushed(): seq<Route> {
      if current.Some? then done + [current.value] else done
    }

    function Result(): Parsed {
      Parsed(table, Pushed(), truncated)
    }
  }

  function ReadHeader(r: Reading, limit: nat, prefix: string, summary: string): Reading {
    var pushed := r.(done := r.Pushed(), current := None, count := r.count + 1);
    if r.count + 1 <= r.skip then pushed
    else if |pushed.done| >= limit then pushed.(truncated := true)
    else pushed.(current := Some(Route(prefix, summary, [])))
  }

  function ReadDetail(r: Reading, text: string): Reading {
    if r.current.Some? then r.(current := Some(WithDetail(r.current.value, text))) else r
  }

  function ReadLine(r: Reading, limit: nat, line: Line): Reading {
    match line
    case PagedMarker => r.(skip := 0)
    case TruncatedMarker => r.(truncated := true)
    case Table(name) => r.(table := Some(name))
    case Noise => r
    case Header(prefix, summary) => ReadHeader(r, limit, prefix, summary)
    case Coded(prefix, summary) => ReadHeader(r, limit, prefix, summary)
    case Foreign(text) => ReadDetail(r, text)
    case Detail(text) => ReadDetail(r, text)
    case Blank => r
  }

  function ReadLines(lines: seq<Line>, limit: nat, offset: nat): Reading {
    if lines == [] then Reading([], None, None, false, 0, offset)
    else ReadLine(ReadLines(lines[..|lines| - 1], limit, offset), limit, lines[|lines| - 1])
  }

  method ParseRouteDetails(lines: seq<Line>, limit: int, offset: int) returns (result: Result<Parsed, ParseError>)
    ensures result.Err? <==> limit < 1 || limit > 1000 || offset < 0
    ensures result.Ok? ==> result.value == ReadLines(lines, limit, offset).Result()
    ensures result.Ok? && Plain(lines) ==> result.value == Expected(lines, offset, limit)
  {
    if limit < 1 || limit > 1000 {
      return Err(InvalidLimit);
    }
    if offset < 0 {
      return Err(InvalidOffset);
    }
    var routes: seq<Route> := [];
    var current: Option<Route> := None;
    var table: Option<string> := None;
    var truncated, routeCount, effectiveOffset := false, 0, offset;
    for i := 0 to |lines|
      invariant effectiveOffset >= 0 && routeCount >= 0
      invariant Reading(routes, current, table, truncated, routeCount, effectiveOffset)
        == ReadLines(lines[..i], limit, offset)
    {
      ghost var before := ReadLines(lines[..i], limit, offset);
      assert lines[..i + 1][..i] == lines[..i] && lines[..i + 1][i] == lines[i];
      match lines[i]
      case PagedMarker =>
        effectiveOffset := 0;
      case TruncatedMarker =>
        truncated := true;
      case Table(name) =>
        table := Some(name);
      case Noise =>
      case Blank =>
      case Detail(text) =>
        if current.Some? {
          current := Some(WithDetail(current.value, text));
        }
      case Foreign(text) =>
        if current.Some? {
          current := Some(WithDetail(current.value, text));
        }
      case _ =>
        if current.Some? {
          routes := routes + [current.value];
          current := None;
        }
        routeCount := routeCount + 1;
        if routeCount > effectiveOffset {
          if |routes| >= limit {
            truncated := true;
          } else {
            current := Some(Route(lines[i].prefix, lines[i].summary, []));
          }
        }
    }
    assert lines[..|lines|] == lines;
    if current.Some? {
      routes := routes + [current.value];
    }
    if Plain(lines) {
      ReadsExpected(lines, limit, offset);
    }
    return Ok(Parsed(table, routes, truncated));
  }

  /** The parser's variables after a plain listing with these routes. */
  predicate Agrees(r: Reading, all: seq<Route>, limit: nat, offset: nat) {
    && r.count == |all| && r.skip == offset
    && r.Pushed() == Page(all, offset, limit)
    && (r.current.Some? <==> offset < |all| <= offset + limit)
    && r.truncated == (|all| > offset + limit)
  }

  lemma {:induction false} ReadingAgrees(lines: seq<Line>, limit: nat, offset: nat)
    requires Plain(lines) && limit >= 1
    ensures Agrees(ReadLines(lines, limit, offset), Routes(lines), limit, offset)
    ensures ReadLines(lines, limit, offset).table == LastTable(lines)
  {
    if lines != [] {
      var init, line := lines[..|lines| - 1], lines[|lines| - 1];
      ReadingAgrees(init, limit, offset);
      AgreesStep(ReadLines(init, limit, offset), Routes(init), limit, offset, line);
    }
  }

  function Grown(all: seq<Route>, line: Line): seq<Route> {
    match line
    case Header(prefix, summary) => all + [Route(prefix, summary, [])]
    case Detail(text) => if all == [] then [] else all[|all| - 1 := WithDetail(all[|all| - 1], text)]
    case _ => all
  }

  lemma GrownPage(all: seq<Route>, line: Line, limit: nat, offset: nat)
    ensures var page, grown := Page(all, offset, limit), Page(Grown(all, line), offset, limit);
      match line
      case Header(prefix, summary) =>
        grown == if offset <= |all| < offset + limit then page + [Route(prefix, summary, [])] else page
      case Detail(text) =>
        if offset < |all| <= offset + limit then
          |page| > 0 && grown == page[|page| - 1 := WithDetail(page[|page| - 1], text)]
        else grown == page
      case _ => grown == page
  {
    match line
    case Header(prefix, summary) => PageOfAppend(all, Route(prefix, summary, []), limit, offset);
    case Detail(text) =>
      if all != [] {
        PageOfUpdate(all, WithDetail(all[|all| - 1], text), limit, offset);
      }
    case _ =>
  }

  lemma PageOfAppend(all: seq<Route>, r: Route, limit: nat, offset: nat)
    ensures Page(all + [r], offset, limit)
         == if offset <= |all| < offset + limit then Page(all, offset, limit) + [r] else Page(all, offset, limit)
  {
    if |all| < offset {
      assert Page(all + [r], offset, limit) == [] == Page(all, offset, limit);
    } else if |all| < offset + limit {
      assert (all + [r])[offset..|all| + 1] == all[offset..] + [r];
    } else {
      assert (all + [r])[offset..offset + limit] == all[offset..offset + limit];
    }
  }

  lemma PageOfUpdate(all: seq<Route>, r: Route, limit: nat, offset: nat)
    requires all != []
    ensures
      var page, grown := Page(all, offset, limit), Page(all[|all| - 1 := r], offset, limit);
      if offset < |all| <= offset + limit then
        |page| > 0 && page[|page| - 1] == all[|all| - 1] && grown == page[|page| - 1 := r]
      else grown == page
  {
    if |all| <= offset {
      assert Page(all[|all| - 1 := r], offset, limit) == [] == Page(all, offset, limit);
    } else if |all| <= offset + limit {
      assert all[|all| - 1 := r][offset..] == all[offset..][|all| - 1 - offset := r];
    } else {
      assert all[|all| - 1 := r][offset..offset + limit] == all[offset..offset + limit];
    }
  }

  lemma AgreesStep(r: Reading, all: seq<Route>, limit: nat, offset: nat, line: Line)
    requires limit >= 1 && Agrees(r, all, limit, offset) && Plain([line])
    ensures Agrees(ReadLine(r, limit, line), Grown(all, line), limit, offset)
  {
    assert [line][0] == line;
    GrownPage(all, line, limit, offset);
    hide Page;
    match line
    case Detail(text) =>
      if r.current.Some? {
        LastPushed(r, text);
      }
    case _ =>
  }

  lemma LastPushed(r: Reading, text: string)
    requires r.current.Some?
    ensures
      var pushed := r.Pushed();
      |pushed| > 0 && ReadDetail(r, text).Pushed() == pushed[|pushed| - 1 := WithDetail(pushed[|pushed| - 1], text)]
  {
  }

  /** Reading a plain listing picks the asked routes out of all. */
  lemma ReadsExpected(lines: seq<Line>, limit: nat, offset: nat)
    requires Plain(lines) && limit >= 1
    ensures ReadLines(lines, limit, offset).Result() == Expected(lines, offset, limit)
  {
    ReadingAgrees(lines, limit, offset);
  }

  // ----- The agent

  predicate AgentHeader(line: Line) {
    line.Header? || line.Foreign?
  }

  datatype Paging = Paging(out: seq<Line>, count: nat, selected: bool, stopped: bool)

  function PageLine(p: Paging, offset: nat, limit: nat, line: Line): Paging {
    if p.stopped then p
    else if AgentHeader(line) then
      if p.count + 1 > offset + limit then p.(out := p.out + [TruncatedMarker], count := p.count + 1, stopped := true)
      else if p.count + 1 > offset then Paging(p.out + [line], p.count + 1, true, false)
      else p.(count := p.count + 1, selected := false)
    else if p.count == 0 || (p.selected && p.count <= offset + limit) then p.(out := p.out + [line])
    else p
  }

  function PageLines(lines: seq<Line>, offset: nat, limit: nat): Paging {
    if lines == [] then Paging(if offset > 0 then [PagedMarker] else [], 0, false, false)
    else PageLine(PageLines(lines[..|lines| - 1], offset, limit), offset, limit, lines[|lines| - 1])
  }

  method PageBirdRoutes(lines: seq<Line>, offset: int, limit: int) returns (out: seq<Line>)
    ensures offset < 0 || limit < 1 ==> out == lines
    ensures offset >= 0 && limit >= 1 ==> out == PageLines(lines, offset, limit).out
  {
    if offset < 0 || limit < 1 {
      return lines;
    }
    out := if offset > 0 then [PagedMarker] else [];
    var routeCount, selectedRoute := 0, false;
    for i := 0 to |lines|
      invariant routeCount >= 0
      invariant PageLines(lines[..i], offset, limit) == Paging(out, routeCount, selectedRoute, false)
    {
      assert lines[..i + 1][..i] == lines[..i] && lines[..i + 1][i] == lines[i];
      if AgentHeader(lines[i]) {
        routeCount := routeCount + 1;
        if routeCount > offset + limit {
          out := out + [TruncatedMarker];
          StoppedForGood(lines, i + 1, offset, limit);
          return;
        }
        selectedRoute := routeCount > offset;
        if selectedRoute {
          out := out + [lines[i]];
        }
      } else if routeCount == 0 || (selectedRoute && routeCount <= offset + limit) {
        out := out + [lines[i]];
      }
    }
    assert lines[..|lines|] == lines;
  }

  lemma {:induction false} StoppedForGood(lines: seq<Line>, i: nat, offset: nat, limit: nat)
    requires i <= |lines| && PageLines(lines[..i], offset, limit).stopped
    ensures PageLines(lines, offset, limit) == PageLines(lines[..i], offset, limit)
  {
    if i == |lines| {
      assert lines[..i] == lines;
    } else {
      assert lines[..|lines| - 1][..i] == lines[..i];
      StoppedForGood(lines[..|lines| - 1], i, offset, limit);
    }
  }

  // ----- Paging and then reading

  /** The parser's variables after the lines the agent sent so far. */
  predicate PagedAgrees(p: Paging, r: Reading, all: seq<Route>, limit: nat, offset: nat) {
    && r.skip == 0 && |r.Pushed()| == r.count
    && r.Pushed() == Page(all, offset, limit)
    && (p.stopped ==> |all| > offset + limit && r.truncated)
    && (!p.stopped ==>
      && p.count == |all| <= offset + limit && !r.truncated
      && p.selected == (|all| > offset) == r.current.Some?)
  }

  lemma {:induction false} PagedReading(lines: seq<Line>, limit: nat, offset: nat)
    requires Plain(lines) && limit >= 1
    ensures
      var p := PageLines(lines, offset, limit);
      PagedAgrees(p, ReadLines(p.out, limit, offset), Routes(lines), limit, offset)
  {
    if lines == [] {
      var out := PageLines(lines, offset, limit).out;
      assert offset > 0 ==> out[..|out| - 1] == [];
    } else {
      hide PagedAgrees, ReadLines, PageLine;
      var init, line := lines[..|lines| - 1], lines[|lines| - 1];
      PagedReading(init, limit, offset);
      PagedStep(PageLines(init, offset, limit), Routes(init), limit, offset, line);
    }
  }

  lemma PagedStep(p: Paging, all: seq<Route>, limit: nat, offset: nat, line: Line)
    requires limit >= 1 && Plain([line]) && PagedAgrees(p, ReadLines(p.out, limit, offset), all, limit, offset)
    ensures
      var after := PageLine(p, offset, limit, line);
      PagedAgrees(after, ReadLines(after.out, limit, offset), Grown(all, line), limit, offset)
  {
    assert [line][0] == line;
    GrownPage(all, line, limit, offset);
    if p.stopped {
      hide ReadLines, Page;
    } else if line.Header? {
      PagedHeader(p, all, limit, offset, line);
    } else if line.Detail? {
      PagedDetail(p, all, limit, offset, line);
    } else {
      OneMore(p.out, line, limit, offset);
      hide ReadLines, Page;
    }
  }

  lemma PagedHeader(p: Paging, all: seq<Route>, limit: nat, offset: nat, line: Line)
    requires limit >= 1 && line.Header? && !p.stopped
    requires PagedAgrees(p, ReadLines(p.out, limit, offset), all, limit, offset)
    ensures
      var after := PageLine(p, offset, limit, line);
      PagedAgrees(after, ReadLines(after.out, limit, offset), Grown(all, line), limit, offset)
  {
    OneMore(p.out, line, limit, offset);
    OneMore(p.out, TruncatedMarker, limit, offset);
    GrownPage(all, line, limit, offset);
    assert |Page(all, offset, limit)| == Min(offset + limit, |all|) - Min(offset, |all|);
    hide ReadLines, Page;
  }

  lemma PagedDetail(p: Paging, all: seq<Route>, limit: nat, offset: nat, line: Line)
    requires limit >= 1 && line.Detail? && !p.stopped
    requires PagedAgrees(p, ReadLines(p.out, limit, offset), all, limit, offset)
    ensures
      var after := PageLine(p, offset, limit, line);
      PagedAgrees(after, ReadLines(after.out, limit, offset), Grown(all, line), limit, offset)
  {
    OneMore(p.out, line, limit, offset);
    GrownPage(all, line, limit, offset);
    hide ReadLines, Page;
    var r := ReadLines(p.out, limit, offset);
    if r.current.Some? {
      LastPushed(r, line.text);
    }
  }

  lemma OneMore(out: seq<Line>, line: Line, limit: nat, offset: nat)
    ensures ReadLines(out + [line], limit, offset) == ReadLine(ReadLines(out, limit, offset), limit, line)
  {
    assert (out + [line])[..|out|] == out;
  }

  lemma {:induction false} HeadersCounted(lines: seq<Line>, limit: nat, offset: nat)
    requires Plain(lines)
    ensures PageLines(lines, offset, limit).count > 0 ==> exists i :: 0 <= i < |lines| && lines[i].Header?
    ensures PageLines(lines, offset, limit).stopped ==> PageLines(lines, offset, limit).count > 0
  {
    if lines != [] {
      var init := lines[..|lines| - 1];
      HeadersCounted(init, limit, offset);
      if i :| 0 <= i < |init| && init[i].Header? {
        assert lines[i].Header?;
      }
    }
  }

  /** Before the first header the agent sends everything, so the table is read. */
  lemma {:induction false} PagedTable(lines: seq<Line>, limit: nat, offset: nat)
    requires Plain(lines) && limit >= 1 && TableFirst(lines)
    ensures ReadLines(PageLines(lines, offset, limit).out, limit, offset).table == LastTable(lines)
  {
    if lines == [] {
      var out := PageLines(lines, offset, limit).out;
      assert offset > 0 ==> out[..|out| - 1] == [];
    } else {
      var init, line := lines[..|lines| - 1], lines[|lines| - 1];
      PagedTable(init, limit, offset);
      HeadersCounted(init, limit, offset);
      var p := PageLines(init, offset, limit);
      if p.count > 0 {
        var i :| 0 <= i < |init| && init[i].Header?;
        assert lines[i].Header? && !line.Table?;
      }
      TableStep(p, line, limit, offset);
    }
  }

  lemma TableStep(p: Paging, line: Line, limit: nat, offset: nat)
    requires Plain([line]) && (p.count > 0 ==> !line.Table?) && (p.stopped ==> p.count > 0)
    ensures ReadLines(PageLine(p, offset, limit, line).out, limit, offset).table
         == if line.Table? then Some(line.name) else ReadLines(p.out, limit, offset).table
  {
    hide ReadLines;
    assert [line][0] == line;
    var r := ReadLines(p.out, limit, offset);
    OneMore(p.out, line, limit, offset);
    OneMore(p.out, TruncatedMarker, limit, offset);
    assert !line.Table? ==> ReadLine(r, limit, line).table == r.table;
  }

  /** The agent's page, read with the same offset and limit, says what the full listing says. */
  lemma PageReadsLikeAll(lines: seq<Line>, limit: nat, offset: nat)
    requires Plain(lines) && limit >= 1
    ensures
      var paged := ReadLines(PageLines(lines, offset, limit).out, limit, offset).Result();
      var full := ReadLines(lines, limit, offset).Result();
      && paged.routes == full.routes && paged.truncated == full.truncated
      && (TableFirst(lines) ==> paged == full)
  {
    PagedReading(lines, limit, offset);
    ReadingAgrees(lines, limit, offset);
    if TableFirst(lines) {
      PagedTable(lines, limit, offset);
    }
  }

  // ----- Headers of the other family

  /** A listing printed without reply codes and not paged yet. */
  predicate Uncoded(lines: seq<Line>) {
    forall line :: line in lines ==> !line.Coded? && !line.PagedMarker? && !line.TruncatedMarker?
  }

  predicate SameReading(lines: seq<Line>, limit: nat, offset: nat) {
    var paged := ReadLines(PageLines(lines, offset, limit).out, limit, offset).Result();
    var full := ReadLines(lines, limit, offset).Result();
    paged.routes == full.routes && paged.truncated == full.truncated
  }

  function HeaderCount(lines: seq<Line>): nat {
    if lines == [] then 0
    else HeaderCount(lines[..|lines| - 1]) + if AgentHeader(lines[|lines| - 1]) then 1 else 0
  }

  /** Nothing that the parser or the agent counts, or a header of the other family alone. */
  predicate AtMostOneForeign(lines: seq<Line>) {
    HeaderCount(lines) <= 1 && forall line :: line in lines ==> !line.Header?
  }

  /**
   * For every limit and offset the agent's page reads like the full listing, exactly when there is no header of the
   * other family, or it is the only header.
   */
  lemma PagesReadLikeAllIff(lines: seq<Line>)
    requires Uncoded(lines)
    ensures (forall limit: nat, offset: nat :: limit >= 1 ==> SameReading(lines, limit, offset))
      <==> Plain(lines) || AtMostOneForeign(lines)
  {
    hide ReadLines, PageLines, HeaderCount;
    if Plain(lines) || AtMostOneForeign(lines) {
      forall limit: nat, offset: nat | limit >= 1
        ensures SameReading(lines, limit, offset)
      {
        if Plain(lines) {
          PageReadsLikeAll(lines, limit, offset);
        } else {
          NothingToPage(lines, limit, offset);
        }
      }
    } else {
      var k := FirstForeign(lines);
      if Routes(lines[..k]) == [] {
        ForeignFirst(lines, k);
      } else {
        ForeignCutsRoute(lines, k);
      }
    }
  }

  lemma FirstForeign(lines: seq<Line>) returns (k: nat)
    requires Uncoded(lines) && !Plain(lines)
    ensures k < |lines| && lines[k].Foreign? && Plain(lines[..k])
  {
    k := |lines| - 1;
    var init := lines[..k];
    if Plain(init) {
      assert forall i :: 0 <= i < k ==> lines[i] == init[i];
      assert lines[k] in lines;
    } else {
      k := FirstForeign(init);
      assert lines[..k] == init[..k];
    }
  }

  lemma {:induction false} HeaderCounted(lines: seq<Line>, i: nat)
    requires i < |lines| && AgentHeader(lines[i])
    ensures HeaderCount(lines) >= HeaderCount(lines[..i]) + 1
  {
    if i < |lines| - 1 {
      assert lines[..|lines| - 1][..i] == lines[..i];
      HeaderCounted(lines[..|lines| - 1], i);
    }
  }

  /** Up to the first header the agent cuts nothing. */
  lemma {:induction false} OneHeaderPaged(lines: seq<Line>, limit: nat, offset: nat)
    requires limit >= 1 && HeaderCount(lines) <= 1
    ensures
      var p := PageLines(lines, offset, limit);
      && !p.stopped && p.count == HeaderCount(lines)
      && forall line :: line in p.out ==> line == PagedMarker || line in lines
  {
    if lines != [] {
      OneHeaderPaged(lines[..|lines| - 1], limit, offset);
    }
  }

  lemma {:induction false} NothingRead(lines: seq<Line>, limit: nat, offset: nat)
    requires forall line :: line in lines ==> !line.Header? && !line.Coded? && !line.TruncatedMarker?
    ensures
      var r := ReadLines(lines, limit, offset);
      r.done == [] && r.current.None? && !r.truncated
  {
    if lines != [] {
      NothingRead(lines[..|lines| - 1], limit, offset);
    }
  }

  lemma NothingToPage(lines: seq<Line>, limit: nat, offset: nat)
    requires Uncoded(lines) && AtMostOneForeign(lines) && limit >= 1
    ensures SameReading(lines, limit, offset)
    ensures ReadLines(PageLines(lines, offset, limit).out, limit, offset).Result().routes == []
  {
    OneHeaderPaged(lines, limit, offset);
    NothingRead(lines, limit, offset);
    NothingRead(PageLines(lines, offset, limit).out, limit, offset);
  }

  lemma FirstGrows(r: Reading, limit: nat, line: Line)
    requires r.Pushed() != []
    ensures
      var pushed := ReadLine(r, limit, line).Pushed();
      pushed != [] && |pushed[0].details| >= |r.Pushed()[0].details|
  {
  }

  lemma {:induction false} FirstOnlyGrows(lines: seq<Line>, k: nat, limit: nat, offset: nat)
    requires k <= |lines| && ReadLines(lines[..k], limit, offset).Pushed() != []
    ensures
      var pushed := ReadLines(lines, limit, offset).Pushed();
      pushed != [] && |pushed[0].details| >= |ReadLines(lines[..k], limit, offset).Pushed()[0].details|
  {
    if k == |lines| {
      assert lines[..k] == lines;
    } else {
      var init := lines[..|lines| - 1];
      assert init[..k] == lines[..k];
      FirstOnlyGrows(init, k, limit, offset);
      FirstGrows(ReadLines(init, limit, offset), limit, lines[|lines| - 1]);
    }
  }

  /** At a foreign header right behind the page's last route the agent stops. */
  lemma ForeignCutsPage(lines: seq<Line>, k: nat)
    requires k < |lines| && lines[k].Foreign? && Plain(lines[..k]) && Routes(lines[..k]) != []
    ensures
      var all, offset := Routes(lines[..k]), |Routes(lines[..k])| - 1;
      ReadLines(PageLines(lines, offset, 1).out, 1, offset).Result().routes == [all[offset]]
  {
    var before, all := lines[..k], Routes(lines[..k]);
    var offset := |all| - 1;
    var p := PageLines(before, offset, 1);
    PagedReading(before, 1, offset);
    assert Page(all, offset, 1) == [all[offset]];
    assert lines[..k + 1] == before + [lines[k]];
    PageMore(before, lines[k], offset, 1);
    StoppedForGood(lines, k + 1, offset, 1);
    OneMore(p.out, TruncatedMarker, 1, offset);
    hide ReadLines, PageLines, Page, Routes, Plain;
  }

  /** The route before the first such header is read with a line that the agent does not send. */
  lemma ForeignCutsRoute(lines: seq<Line>, k: nat)
    requires k < |lines| && lines[k].Foreign? && Plain(lines[..k]) && Routes(lines[..k]) != []
    ensures !SameReading(lines, 1, |Routes(lines[..k])| - 1)
  {
    hide ReadLines, PageLines, Routes, Plain;
    var before, all := lines[..k], Routes(lines[..k]);
    var offset := |all| - 1;
    ForeignCutsPage(lines, k);
    ReadingAgrees(before, 1, offset);
    assert Page(all, offset, 1) == [all[offset]];
    assert lines[..k + 1] == before + [lines[k]];
    OneMore(before, lines[k], 1, offset);
    FirstOnlyGrows(lines, k + 1, 1, offset);
  }

  /** A header of the other family comes before every one that the parser takes. */
  predicate ForeignLeads(lines: seq<Line>) {
    forall i :: 0 <= i < |lines| && lines[i].Header? ==> exists j :: 0 <= j < i && lines[j].Foreign?
  }

  lemma LeadsAlone(lines: seq<Line>, line: Line)
    requires ForeignLeads(lines) && HeaderCount(lines) <= 1 && line in lines
    ensures !line.Header?
  {
    if line.Header? {
      var i :| 0 <= i < |lines| && lines[i] == line;
      var j :| 0 <= j < i && lines[j].Foreign?;
      HeaderCounted(lines, i);
      HeaderCounted(lines[..i], j);
    }
  }

  lemma {:induction false} ForeignStops(lines: seq<Line>)
    requires Uncoded(lines) && ForeignLeads(lines) && HeaderCount(lines) >= 2
    ensures
      var p := PageLines(lines, 0, 1);
      p.stopped && ReadLines(p.out, 1, 0).Result().routes == [] && ReadLines(p.out, 1, 0).truncated
  {
    var init := lines[..|lines| - 1];
    assert forall i :: 0 <= i < |init| ==> init[i] == lines[i];
    if HeaderCount(init) >= 2 {
      ForeignStops(init);
    } else {
      forall line | line in init
        ensures !line.Header?
      {
        LeadsAlone(init, line);
      }
      OneHeaderPaged(init, 1, 0);
      NothingToPage(init, 1, 0);
      OneMore(PageLines(init, 0, 1).out, TruncatedMarker, 1, 0);
    }
  }

  lemma {:induction false} HeaderRead(lines: seq<Line>)
    requires exists line :: line in lines && line.Header?
    ensures ReadLines(lines, 1, 0).Pushed() != []
  {
    var init := lines[..|lines| - 1];
    NothingSkipped(init);
    if exists line :: line in init && line.Header? {
      HeaderRead(init);
    } else {
      assert lines[|lines| - 1].Header?;
    }
  }

  lemma {:induction false} NothingSkipped(lines: seq<Line>)
    ensures ReadLines(lines, 1, 0).skip == 0
  {
    if lines != [] {
      NothingSkipped(lines[..|lines| - 1]);
    }
  }

  lemma {:induction false} HeadersAreRoutes(lines: seq<Line>)
    requires Routes(lines) == []
    ensures forall line :: line in lines ==> !line.Header?
  {
    if lines != [] {
      HeadersAreRoutes(lines[..|lines| - 1]);
    }
  }

  /** After such a header the agent stops at the next one, before any route. */
  lemma ForeignFirst(lines: seq<Line>, k: nat)
    requires Uncoded(lines) && !AtMostOneForeign(lines)
    requires k < |lines| && lines[k].Foreign? && Routes(lines[..k]) == []
    ensures !SameReading(lines, 1, 0)
  {
    HeadersAreRoutes(lines[..k]);
    assert forall i :: 0 <= i < k ==> lines[i] in lines[..k];
    assert ForeignLeads(lines);
    if HeaderCount(lines) <= 1 {
      var line :| line in lines && line.Header?;
      LeadsAlone(lines, line);
    }
    ForeignStops(lines);
    if exists line :: line in lines && line.Header? {
      HeaderRead(lines);
    } else {
      NothingRead(lines, 1, 0);
    }
  }

  lemma PageMore(lines: seq<Line>, line: Line, offset: nat, limit: nat)
    ensures PageLines(lines + [line], offset, limit) == PageLine(PageLines(lines, offset, limit), offset, limit, line)
  {
    assert (lines + [line])[..|lines|] == lines;
  }

  lemma ReadTwo(a: Line, b: Line, limit: nat, offset: nat)
    ensures ReadLines([a, b], limit, offset)
      == ReadLine(ReadLine(Reading([], None, None, false, 0, offset), limit, a), limit, b)
  {
    OneMore([], a, limit, offset);
    OneMore([a], b, limit, offset);
    assert [] + [a] == [a] && [a] + [b] == [a, b];
  }

  /** A header of the other family counts on the agent only: here it hides the one route of the listing. */
  lemma ForeignHeaderHidesRoute(text: string, prefix: string, summary: string)
    ensures
      var lines := [Foreign(text), Header(prefix, summary)];
      && ReadLines(lines, 1, 0).Result() == Parsed(None, [Route(prefix, summary, [])], false)
      && ReadLines(PageLines(lines, 0, 1).out, 1, 0).Result() == Parsed(None, [], true)
  {
    hide ReadLines, PageLines;
    var foreign, header := Foreign(text), Header(prefix, summary);
    ReadTwo(foreign, header, 1, 0);
    ReadTwo(foreign, TruncatedMarker, 1, 0);
    PageNothing(0, 1);
    PageMore([], foreign, 0, 1);
    PageMore([foreign], header, 0, 1);
    assert [] + [foreign] == [foreign] && [foreign] + [header] == [foreign, header];
    assert [foreign] + [TruncatedMarker] == [foreign, TruncatedMarker];
  }

  lemma PageNothing(offset: nat, limit: nat)
    ensures PageLines([], offset, limit) == Paging(if offset > 0 then [PagedMarker] else [], 0, false, false)
  {
  }

  /**
   * Why paging is only right without reply codes: headers behind them count on the controller only, so that every
   * page would be read as the first. The agent pages what `birdc` prints without codes.
   */
  lemma CodedHeadersAreNotPaged(first: string, second: string, summary: string)
    ensures
      var lines := [Coded(first, summary), Coded(second, summary)];
      && ReadLines(lines, 1, 1).Result() == Parsed(None, [Route(second, summary, [])], false)
      && ReadLines(PageLines(lines, 1, 1).out, 1, 1).Result() == Parsed(None, [Route(first, summary, [])], true)
  {
    hide ReadLines, PageLines;
    var a, b := Coded(first, summary), Coded(second, summary);
    ReadTwo(a, b, 1, 1);
    PageNothing(1, 1);
    PageMore([], a, 1, 1);
    PageMore([a], b, 1, 1);
    assert [] + [a] == [a] && [a] + [b] == [a, b] && [PagedMarker] + [a] == [PagedMarker, a];
    ReadTwo(PagedMarker, a, 1, 1);
    OneMore([PagedMarker, a], b, 1, 1);
  }

  /** Consecutive pages put together are the whole list. */
  lemma {:induction false} PagesConcatenate(lines: seq<Line>, limit: nat, pages: nat)
    requires Plain(lines) && limit >= 1
    ensures JoinedPages(lines, limit, pages) == Routes(lines)[..Min(pages * limit, |Routes(lines)|)]
    ensures pages * limit >= |Routes(lines)| ==> JoinedPages(lines, limit, pages) == Routes(lines)
  {
    hide Routes, ReadLines, PageLines, Plain;
    var all := Routes(lines);
    if pages > 0 {
      PagesConcatenate(lines, limit, pages - 1);
      var offset := (pages - 1) * limit;
      assert offset + limit == pages * limit;
      PageReadsLikeAll(lines, limit, offset);
      ReadsExpected(lines, limit, offset);
      NextPage(all, offset, limit);
    }
  }

  lemma NextPage(all: seq<Route>, offset: nat, limit: nat)
    ensures all[..Min(offset, |all|)] + Page(all, offset, limit) == all[..Min(offset + limit, |all|)]
  {
  }

  /** What the controller reads of the first pages, each asked for with the next offset. */
  function JoinedPages(lines: seq<Line>, limit: nat, pages: nat): seq<Route> {
    if pages == 0 then []
    else
      var offset := (pages - 1) * limit;
      JoinedPages(lines, limit, pages - 1)
        + ReadLines(PageLines(lines, offset, limit).out, limit, offset).Result().routes
  }

  /** One request for a page, answered by the agent and read by the controller. */
  method ReadPage(lines: seq<Line>, limit: int, offset: int) returns (result: Result<Parsed, ParseError>)
    requires Plain(lines)
    ensures result.Err? <==> limit < 1 || limit > 1000 || offset < 0
    ensures result.Ok? ==>
      var all := Routes(lines);
      && result.value.routes == Page(all, offset, limit)
      && result.value.truncated == (|all| > offset + limit)
      && (TableFirst(lines) ==> result.value.table == LastTable(lines))
  {
    var sent := PageBirdRoutes(lines, offset, limit);
    result := ParseRouteDetails(sent, limit, offset);
    if result.Ok? {
      PageReadsLikeAll(lines, limit, offset);
      ReadsExpected(lines, limit, offset);
    }
  }
}
