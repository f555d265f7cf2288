/** Managed policy rules: the accepted tuples and the kernel's own listing of them
    (agent/network.go, agent/network_text.go and `installedIPRule` of agent/network_state.go). */
module IpRules {
  import opened Wrappers
  import opened Ipv4
  import opened Ipv4Text
  import Decimal

  const MAIN_TABLE := 254
  const MAX_PRIORITY := 32765
  const MAX_TABLE := 2147483647

  /** One selector: a source block sent to a table, or a destination block kept on the main table. */
  datatype Selector = From(source: Cidr) | To(destination: Cidr)

  datatype Rule = Rule(priority: int, selector: Selector, table: int) {
    predicate Valid() {
      && 1 <= priority <= MAX_PRIORITY
      && 1 <= table <= MAX_TABLE
      && table != 253 && table != 255
      && match selector {
        case From(source) => source.Valid() && table != MAIN_TABLE
        case To(destination) => destination.Valid() && table == MAIN_TABLE
      }
    }
  }

  /** A request object, its fields read as integers and strings; a missing field is `None`. */
  datatype RuleInput = RuleInput(
    priority: int, table: int, source: Option<string>, destination: Option<string>, kind: Option<string>)

  function ParseIpRule(raw: RuleInput): (rule: Option<Rule>)
    ensures rule.Some? ==> rule.value.Valid()
    ensures rule.Some? ==>
      && 1 <= raw.priority <= 32765 && 1 <= raw.table <= 2147483647 && raw.table !in {253, 255}
      && rule.value.priority == raw.priority && rule.value.table == raw.table
      && (raw.table == 254 <==> raw.destination.Some?)
  {
    if raw.source.Some? == raw.destination.Some? then None
    else if KindMismatch(raw) then None
    else if raw.priority < 1 || raw.priority > MAX_PRIORITY || raw.table < 1 || raw.table > MAX_TABLE
            || raw.table == 253 || raw.table == 255 then None
    else if raw.source.Some? then
      match ParseCidr(raw.source.value)
      case Some(network) =>
        if raw.table == MAIN_TABLE then None else Some(Rule(raw.priority, From(network), raw.table))
      case None => None
    else
      match ParseCidr(raw.destination.value)
      case Some(network) =>
        if raw.table != MAIN_TABLE then None else Some(Rule(raw.priority, To(network), raw.table))
      case None => None
  }

  predicate KindMismatch(raw: RuleInput) {
    && raw.kind.Some?
    && var kind := raw.kind.value;
       || (kind != "source" && kind != "gateway")
       || (kind == "source" && raw.source.None?)
       || (kind == "gateway" && raw.destination.None?)
  }

  /** The tuple as the state file stores it. */
  function SavedForm(rule: Rule): RuleInput {
    match rule.selector
    case From(source) => RuleInput(rule.priority, rule.table, Some(CidrText(source)), None, None)
    case To(destination) => RuleInput(rule.priority, rule.table, None, Some(CidrText(destination)), None)
  }

  /** The file check accepts exactly the rules the parser can produce. */
  lemma SavedFormIsAccepted(rule: Rule)
    requires rule.Valid()
    ensures ParseIpRule(SavedForm(rule)) == Some(rule)
  {
    match rule.selector
    case From(source) => ParseCidrOfText(source);
    case To(destination) => ParseCidrOfText(destination);
  }

  /** A kind, when the request names one, must be the selector's. */
  lemma KindIsChecked(rule: Rule, kind: string)
    requires rule.Valid()
    ensures ParseIpRule(SavedForm(rule).(kind := Some(kind)))
      == if kind == (if rule.selector.From? then "source" else "gateway") then Some(rule) else None
  {
    SavedFormIsAccepted(rule);
    assert "source" != "gateway" by {
      assert |"source"| != |"gateway"|;
    }
  }

  // ----- The kernel's rules and the text it lists them with

  /** Any rule the kernel may hold: `inverted` and `extra` stand for selectors outside the managed tuple. */
  datatype KernelRule = KernelRule(
    priority: nat, src: Cidr, dst: Cidr, table: nat, inverted: bool, extra: seq<string>, protocol: Option<string>)
  {
    predicate Valid() {
      && priority <= 0xffff_ffff
      && table <= 0xffff_ffff
      && src.Valid()
      && dst.Valid()
      && (extra != [] ==> FieldName(extra[0]).None?)
    }
  }

  /** What `ip rule add` leaves in the kernel. */
  function Installed(rule: Rule): (e: KernelRule)
    requires rule.Valid()
    ensures e.Valid() && e.priority == rule.priority
  {
    match rule.selector
    case From(source) => KernelRule(rule.priority, source, ANY, rule.table, false, [], None)
    case To(destination) => KernelRule(rule.priority, ANY, destination, rule.table, false, [], None)
  }

  function BlockText(c: Cidr): string {
    if c.length == 0 then "all" else if c.length == 32 then AddressText(c.network) else CidrText(c)
  }

  function TableText(table: nat): string {
    if table == MAIN_TABLE then "main"
    else if table == 253 then "default"
    else if table == 255 then "local"
    else Decimal.Format(table)
  }

  /** One line of `ip -4 rule show`, split at white space. */
  function ListingLine(e: KernelRule): (line: seq<string>)
    ensures line != []
  {
    [Decimal.Format(e.priority) + ":"]
    + (if e.inverted then ["not"] else [])
    + SelectorTokens(
        BlockText(e.src), if e.dst.length > 0 then Some(BlockText(e.dst)) else None,
        e.extra, TableText(e.table), e.protocol)
  }

  function SelectorTokens(
    src: string, dst: Option<string>, extra: seq<string>, table: string, protocol: Option<string>): seq<string>
  {
    ["from", src] + (OptionalPair("to", dst) + (extra + (["lookup", table] + OptionalPair("proto", protocol))))
  }

  function OptionalPair(key: string, value: Option<string>): seq<string> {
    if value.Some? then [key, value.value] else []
  }

  // ----- Reading the listing back

  /** The parsed line: the priority and the string-valued keys. */
  datatype Raw = Raw(priority: int, fields: map<string, string>)

  const UNSUPPORTED := "unsupported"

  function FieldName(token: string): Option<string> {
    if token == "from" then Some("src")
    else if token == "to" then Some("dst")
    else if token == "lookup" || token == "table" then Some("table")
    else if token == "proto" || token == "protocol" then Some("protocol")
    else None
  }

  lemma SelectorIsRead(name: string, value: string, raw: Raw)
    requires FieldName(name).Some?
    ensures ReadFields([name, value], raw) == Some(raw.(fields := raw.fields[FieldName(name).value := value]))
  {
    PairStep(name, FieldName(name).value, value, [], raw);
    assert [name, value] + [] == [name, value];
  }

  /** The selectors a managed rule may have, by each of their names. */
  lemma SelectorsAreRead(value: string, raw: Raw)
    ensures ReadFields(["from", value], raw) == Some(raw.(fields := raw.fields["src" := value]))
    ensures ReadFields(["to", value], raw) == Some(raw.(fields := raw.fields["dst" := value]))
    ensures ReadFields(["lookup", value], raw) == ReadFields(["table", value], raw)
      == Some(raw.(fields := raw.fields["table" := value]))
    ensures ReadFields(["proto", value], raw) == ReadFields(["protocol", value], raw)
      == Some(raw.(fields := raw.fields["protocol" := value]))
  {
    hide ReadFields;
    SelectorIsRead("from", value, raw);
    SelectorIsRead("to", value, raw);
    SelectorIsRead("lookup", value, raw);
    SelectorIsRead("table", value, raw);
    SelectorIsRead("proto", value, raw);
    SelectorIsRead("protocol", value, raw);
  }

  /** Reads selector/value pairs; any other token marks the rule as unsupported. `None` is a parse error. */
  function ReadFields(tokens: seq<string>, raw: Raw): Option<Raw> {
    if tokens == [] then Some(raw)
    else
      match FieldName(tokens[0])
      case None => ReadFields(tokens[1..], raw.(fields := raw.fields[UNSUPPORTED := ""]))
      case Some(name) =>
        if |tokens| == 1 then None
        else ReadFields(tokens[2..], raw.(fields := raw.fields[name := tokens[1]]))
  }

  function ReadLine(tokens: seq<string>): Option<Raw>
    requires tokens != []
  {
    match LinePriority(tokens[0])
    case None => None
    case Some(priority) => ReadFields(tokens[1..], Raw(priority, map[]))
  }

  function LinePriority(token: string): Option<int> {
    if token == [] || token[|token| - 1] != ':' then None
    else Decimal.ParseInt64(token[..|token| - 1])
  }

  function Get(fields: map<string, string>, key: string): string {
    if key in fields then fields[key] else ""
  }

  const WHOLE_SPACE := "0.0.0.0/0"
  const SUPPORTED := {"src", "dst", "table", "protocol"}

  function SelectorText(text: string): Option<string> {
    if text == "" || text == "all" || text == WHOLE_SPACE then None
    else if '/' in text then Some(text)
    else Some(text + "/32")
  }

  /** The managed tuple a listed rule stands for, if it is one of ours. */
  function InstalledIpRule(raw: Raw): Option<Rule> {
    if !(raw.fields.Keys <= SUPPORTED) then None
    else
      var table := Get(raw.fields, "table");
      match Decimal.ParseInt64(if table == "main" then "254" else table)
      case None => None
      case Some(lookup) =>
        ParseIpRule(ListedInput(
          raw.priority, lookup, SelectorText(Get(raw.fields, "src")), SelectorText(Get(raw.fields, "dst"))))
  }

  /** A rule listed with no selector at all is the /0 rule of the kind its table calls for. */
  function ListedInput(priority: int, lookup: int, source: Option<string>, destination: Option<string>): RuleInput {
    if source.None? && destination.None? then
      if lookup == MAIN_TABLE then RuleInput(priority, lookup, None, Some(WHOLE_SPACE), None)
      else RuleInput(priority, lookup, Some(WHOLE_SPACE), None, None)
    else RuleInput(priority, lookup, source, destination, None)
  }

  /** The same question answered from the kernel's own data, with no text in between. */
  function Managed(e: KernelRule): (rule: Option<Rule>)
    requires e.Valid()
    ensures rule.Some? ==> rule.value.Valid() && rule.value.priority == e.priority
  {
    var selector := if e.dst.length > 0 || (e.src.length == 0 && e.table == MAIN_TABLE) then To(e.dst) else From(e.src);
    var rule := Rule(e.priority, selector, e.table);
    if e.inverted || e.extra != [] || (e.src.length > 0 && e.dst.length > 0) || !rule.Valid() then None
    else Some(rule)
  }

  lemma PairStep(key: string, name: string, value: string, rest: seq<string>, raw: Raw)
    requires FieldName(key) == Some(name)
    ensures ReadFields([key, value] + rest, raw) == ReadFields(rest, raw.(fields := raw.fields[name := value]))
  {
    assert ([key, value] + rest)[2..] == rest;
  }

  lemma {:induction false} UnsupportedStays(tokens: seq<string>, raw: Raw)
    requires UNSUPPORTED in raw.fields
    ensures ReadFields(tokens, raw).Some? ==> UNSUPPORTED in ReadFields(tokens, raw).value.fields
  {
    if tokens != [] {
      match FieldName(tokens[0])
      case None => UnsupportedStays(tokens[1..], raw.(fields := raw.fields[UNSUPPORTED := ""]));
      case Some(name) =>
        if |tokens| > 1 {
          UnsupportedStays(tokens[2..], raw.(fields := raw.fields[name := tokens[1]]));
        }
    }
  }

  lemma PriorityOfLine(priority: nat)
    requires priority <= 0xffff_ffff
    ensures LinePriority(Decimal.Format(priority) + ":") == Some(priority)
  {
    Decimal.ParseInt64OfFormat(priority);
    var token := Decimal.Format(priority) + ":";
    assert token[..|token| - 1] == Decimal.Format(priority);
  }

  lemma OptionalStep(key: string, name: string, value: Option<string>, rest: seq<string>, raw: Raw)
    requires FieldName(key) == Some(name)
    ensures ReadFields(OptionalPair(key, value) + rest, raw)
         == ReadFields(rest, if value.Some? then raw.(fields := raw.fields[name := value.value]) else raw)
  {
    if value.Some? {
      PairStep(key, name, value.value, rest, raw);
    } else {
      assert OptionalPair(key, value) + rest == rest;
    }
  }

  lemma ExtraTokensAreMarked(
    src: string, dst: Option<string>, extra: seq<string>, table: string, protocol: Option<string>, raw: Raw)
    requires extra != [] && FieldName(extra[0]).None?
    ensures
      var read := ReadFields(SelectorTokens(src, dst, extra, table, protocol), raw);
      read.Some? ==> UNSUPPORTED in read.value.fields
  {
    var tail := extra + (["lookup", table] + OptionalPair("proto", protocol));
    PairStep("from", "src", src, OptionalPair("to", dst) + tail, raw);
    var read := raw.(fields := raw.fields["src" := src]);
    OptionalStep("to", "dst", dst, tail, read);
    read := if dst.Some? then read.(fields := read.fields["dst" := dst.value]) else read;
    UnsupportedStays(tail[1..], read.(fields := read.fields[UNSUPPORTED := ""]));
  }

  lemma PlainTokensRead(src: string, dst: Option<string>, table: string, protocol: Option<string>, priority: int)
    ensures
      var read := ReadFields(SelectorTokens(src, dst, [], table, protocol), Raw(priority, map[]));
      && read.Some?
      && read.value.priority == priority
      && read.value.fields.Keys <= SUPPORTED
      && Get(read.value.fields, "src") == src
      && Get(read.value.fields, "dst") == (if dst.Some? then dst.value else "")
      && Get(read.value.fields, "table") == table
  {
    var raw := Raw(priority, map[]);
    var tail := ["lookup", table] + OptionalPair("proto", protocol);
    assert [] + tail == tail;
    PairStep("from", "src", src, OptionalPair("to", dst) + tail, raw);
    raw := raw.(fields := raw.fields["src" := src]);
    OptionalStep("to", "dst", dst, tail, raw);
    raw := if dst.Some? then raw.(fields := raw.fields["dst" := dst.value]) else raw;
    PairStep("lookup", "table", table, OptionalPair("proto", protocol), raw);
    raw := raw.(fields := raw.fields["table" := table]);
    assert OptionalPair("proto", protocol) + [] == OptionalPair("proto", protocol);
    OptionalStep("proto", "protocol", protocol, [], raw);
  }

  lemma MarkedIsUnmanaged(raw: Raw)
    requires UNSUPPORTED in raw.fields
    ensures InstalledIpRule(raw).None?
  {
    assert UNSUPPORTED !in SUPPORTED;
  }

  lemma NotIsMarked(tokens: seq<string>, raw: Raw)
    ensures
      var read := ReadFields(["not"] + tokens, raw);
      read.Some? ==> UNSUPPORTED in read.value.fields
  {
    assert (["not"] + tokens)[1..] == tokens;
    UnsupportedStays(tokens, raw.(fields := raw.fields[UNSUPPORTED := ""]));
  }

  function ListedTokens(e: KernelRule): seq<string>
    requires e.Valid()
  {
    var dst := if e.dst.length > 0 then Some(BlockText(e.dst)) else None;
    SelectorTokens(BlockText(e.src), dst, e.extra, TableText(e.table), e.protocol)
  }

  lemma LineIsRead(e: KernelRule)
    requires e.Valid()
    ensures ReadLine(ListingLine(e))
      == ReadFields(if e.inverted then ["not"] + ListedTokens(e) else ListedTokens(e), Raw(e.priority, map[]))
  {
    PriorityOfLine(e.priority);
    hide ReadFields, SelectorTokens, BlockText, TableText;
    assert ListingLine(e)[1..] == if e.inverted then ["not"] + ListedTokens(e) else ListedTokens(e);
  }

  /** A listing with any selector outside the tuple is an error or an unmanaged rule. */
  lemma ExtraSelectorsAreNeverManaged(e: KernelRule)
    requires e.Valid() && (e.inverted || e.extra != [])
    ensures ReadLine(ListingLine(e)).Some? ==> InstalledIpRule(ReadLine(ListingLine(e)).value).None?
  {
    hide ReadFields, InstalledIpRule, ReadLine, BlockText, TableText, FieldName, SelectorTokens, ListingLine;
    var dst := if e.dst.length > 0 then Some(BlockText(e.dst)) else None;
    var start := Raw(e.priority, map[]);
    LineIsRead(e);
    if e.inverted {
      NotIsMarked(ListedTokens(e), start);
    } else {
      ExtraTokensAreMarked(BlockText(e.src), dst, e.extra, TableText(e.table), e.protocol, start);
    }
    if ReadLine(ListingLine(e)).Some? {
      MarkedIsUnmanaged(ReadLine(ListingLine(e)).value);
    }
  }

  /** What a line without extra selectors reads as. */
  lemma PlainLineFields(e: KernelRule)
    requires e.Valid() && !e.inverted && e.extra == []
    ensures
      var read := ReadLine(ListingLine(e));
      && read.Some?
      && read.value.priority == e.priority
      && read.value.fields.Keys <= SUPPORTED
      && Get(read.value.fields, "src") == BlockText(e.src)
      && Get(read.value.fields, "dst") == (if e.dst.length > 0 then BlockText(e.dst) else "")
      && Get(read.value.fields, "table") == TableText(e.table)
  {
    PriorityOfLine(e.priority);
    var src, dst := BlockText(e.src), if e.dst.length > 0 then Some(BlockText(e.dst)) else None;
    PlainTokensRead(src, dst, TableText(e.table), e.protocol, e.priority);
    assert ListingLine(e)[1..] == SelectorTokens(src, dst, e.extra, TableText(e.table), e.protocol);
  }

  /** `text` selects exactly `c`; a block of length zero selects everything. */
  predicate Selects(text: string, c: Cidr) {
    match SelectorText(text)
    case None => c.length == 0
    case Some(block) => c.length > 0 && ParseCidr(block) == Some(c)
  }

  lemma SlashSuffix(c: Cidr)
    requires c.Valid() && c.length == 32
    ensures AddressText(c.network) + "/32" == CidrText(c)
  {
    assert Decimal.Format(32) == "32" by { assert Decimal.Format(3) == "3"; }
  }

  lemma SelectorTextOfBlock(c: Cidr)
    requires c.Valid()
    ensures Selects(BlockText(c), c)
  {
    if c.length > 0 {
      ParseCidrOfText(c);
      ParseAddressOfText(c.network);
      BlockTextIsNotAll(c);
      if c.length == 32 {
        SlashSuffix(c);
      } else {
        var text := CidrText(c);
        assert text[|AddressText(c.network)|] == '/';
        assert '/' in text;
      }
    }
  }

  lemma BlockTextIsNotAll(c: Cidr)
    requires c.Valid() && c.length > 0
    ensures BlockText(c) !in {"", "all", WHOLE_SPACE}
  {
    var first := AddressText(c.network)[0];
    assert first == Decimal.Format(c.network / 0x100_0000)[0];
    assert Decimal.IsDigit(first);
    assert BlockText(c)[0] == first;
    if BlockText(c) == WHOLE_SPACE {
      ParseAddressOfText(c.network);
      ParseCidrOfText(c);
      ParseZero();
    }
  }

  lemma ParseZero()
    ensures ParseCidr(WHOLE_SPACE) == Some(ANY)
  {
    ParseCidrOfText(ANY);
    assert CidrText(ANY) == WHOLE_SPACE;
  }

  lemma TableOfText(table: nat)
    requires table <= 0xffff_ffff
    ensures
      var text := TableText(table);
      var lookup := Decimal.ParseInt64(if text == "main" then "254" else text);
      if table == 253 || table == 255 then lookup.None? else lookup == Some(table)
  {
    Decimal.ParseInt64OfFormat(table);
    Decimal.ParseInt64OfFormat(254);
    assert Decimal.Format(254) == "254" by { assert Decimal.Format(25) == "25" by { assert Decimal.Format(2) == "2"; } }
    assert Decimal.IsDigit(Decimal.Format(table)[0]) by { assert Decimal.Format(table)[0] in Decimal.Format(table); }
  }

  lemma ParsedListing(
    priority: int, lookup: int, source: Option<string>, destination: Option<string>, src: Cidr, dst: Cidr)
    requires src.Valid() && dst.Valid()
    requires if source.None? then src == ANY else src.length > 0 && ParseCidr(source.value) == Some(src)
    requires if destination.None? then dst == ANY else dst.length > 0 && ParseCidr(destination.value) == Some(dst)
    ensures
      var selector := if dst.length > 0 || (src.length == 0 && lookup == MAIN_TABLE) then To(dst) else From(src);
      var rule := Rule(priority, selector, lookup);
      ParseIpRule(ListedInput(priority, lookup, source, destination))
      == if (src.length > 0 && dst.length > 0) || !rule.Valid() then None else Some(rule)
  {
    ParseZero();
  }

  /** The decision depends only on what the four texts denote. */
  lemma DecisionFromTexts(e: KernelRule, raw: Raw)
    requires e.Valid() && !e.inverted && e.extra == []
    requires raw.priority == e.priority && raw.fields.Keys <= SUPPORTED
    requires Selects(Get(raw.fields, "src"), e.src) && Selects(Get(raw.fields, "dst"), e.dst)
    requires
      var table := Get(raw.fields, "table");
      var lookup := Decimal.ParseInt64(if table == "main" then "254" else table);
      if e.table == 253 || e.table == 255 then lookup.None? else lookup == Some(e.table)
    ensures InstalledIpRule(raw) == Managed(e)
  {
    var source, destination := SelectorText(Get(raw.fields, "src")), SelectorText(Get(raw.fields, "dst"));
    if e.src.length == 0 {
      WholeSpace(e.src);
    }
    if e.dst.length == 0 {
      WholeSpace(e.dst);
    }
    ParsedListing(e.priority, e.table, source, destination, e.src, e.dst);
  }

  /** Listing any kernel rule and reading it back decides management exactly as the kernel's data does. */
  lemma ReadingAgreesWithKernel(e: KernelRule)
    requires e.Valid()
    ensures
      var read := ReadLine(ListingLine(e));
      (if read.Some? then InstalledIpRule(read.value) else None) == Managed(e)
  {
    if e.inverted || e.extra != [] {
      ExtraSelectorsAreNeverManaged(e);
    } else {
      PlainLineFields(e);
      SelectorTextOfBlock(e.src);
      SelectorTextOfBlock(e.dst);
      TableOfText(e.table);
      DecisionFromTexts(e, ReadLine(ListingLine(e)).value);
    }
  }

  /** Every accepted rule survives the kernel's listing. */
  lemma RoundTrip(input: RuleInput)
    requires ParseIpRule(input).Some?
    ensures
      var rule := ParseIpRule(input).value;
      var read := ReadLine(ListingLine(Installed(rule)));
      read.Some? && InstalledIpRule(read.value) == Some(rule)
  {
    ReadingAgreesWithKernel(Installed(ParseIpRule(input).value));
    ManagedInstalled(ParseIpRule(input).value);
  }

  lemma ManagedInstalled(rule: Rule)
    requires rule.Valid()
    ensures Managed(Installed(rule)) == Some(rule)
  {
    match rule.selector
    case From(source) => if source.length == 0 { WholeSpace(source); }
    case To(destination) => if destination.length == 0 { WholeSpace(destination); }
  }

  /** No two managed rules share a listing. */
  lemma ListingIsInjective(left: Rule, right: Rule)
    requires left.Valid() && right.Valid()
    requires ListingLine(Installed(left)) == ListingLine(Installed(right))
    ensures left == right
  {
    ReadingAgreesWithKernel(Installed(left));
    ReadingAgreesWithKernel(Installed(right));
    ManagedInstalled(left);
    ManagedInstalled(right);
  }

  // ----- The whole listing

  function ReadListing(lines: seq<seq<string>>): Option<seq<Raw>> {
    if lines == [] then Some([])
    else if lines[0] == [] then ReadListing(lines[1..])
    else
      match ReadLine(lines[0])
      case None => None
      case Some(raw) =>
        match ReadListing(lines[1..])
        case None => None
        case Some(rest) => Some([raw] + rest)
  }

  lemma {:induction false} ReadListingStep(lines: seq<seq<string>>, i: nat)
    requires i < |lines|
    ensures ReadListing(lines[i..])
         == if lines[i] == [] then ReadListing(lines[i + 1..])
            else match ReadLine(lines[i])
                 case None => None
                 case Some(raw) =>
                   match ReadListing(lines[i + 1..])
                   case None => None
                   case Some(rest) => Some([raw] + rest)
  {
    assert lines[i..][1..] == lines[i + 1..];
  }

  /** One line: its tokens are consumed in selector/value pairs. */
  method ParseTextIpRule(fields: seq<string>) returns (rule: Option<Raw>)
    requires fields != []
    ensures rule == ReadLine(fields)
  {
    var priority := LinePriority(fields[0]);
    if priority.None? {
      return None;
    }
    var raw := Raw(priority.value, map[]);
    var index := 1;
    while index < |fields|
      invariant 1 <= index <= |fields|
      invariant ReadLine(fields) == ReadFields(fields[index..], raw)
    {
      var name := FieldName(fields[index]);
      if name.None? {
        raw := raw.(fields := raw.fields[UNSUPPORTED := ""]);
        assert fields[index..][1..] == fields[index + 1..];
        index := index + 1;
        continue;
      }
      if index + 1 >= |fields| {
        return None;
      }
      raw := raw.(fields := raw.fields[name.value := fields[index + 1]]);
      assert fields[index..][2..] == fields[index + 2..];
      index := index + 2;
    }
    return Some(raw);
  }

  function After(done: seq<Raw>, rest: Option<seq<Raw>>): (all: Option<seq<Raw>>)
    ensures done == [] ==> all == rest
    ensures rest == Some([]) ==> all == Some(done)
  {
    assert [] + (if rest.Some? then rest.value else []) == if rest.Some? then rest.value else [];
    assert done + [] == done;
    match rest
    case None => None
    case Some(raws) => Some(done + raws)
  }

  /** Reads every non-blank line, or nothing at all when one line does not parse. */
  method ParseTextIpRules(lines: seq<seq<string>>) returns (rules: Option<seq<Raw>>)
    ensures rules == ReadListing(lines)
  {
    var result: seq<Raw> := [];
    assert lines[0..] == lines;
    for i := 0 to |lines|
      invariant ReadListing(lines) == After(result, ReadListing(lines[i..]))
    {
      ReadListingStep(lines, i);
      if lines[i] == [] {
        continue;
      }
      var rule := ParseTextIpRule(lines[i]);
      if rule.None? {
        return None;
      }
      ghost var rest := ReadListing(lines[i + 1..]);
      assert rest.Some? ==> result + ([rule.value] + rest.value) == result + [rule.value] + rest.value;
      result := result + [rule.value];
    }
    return Some(result);
  }

  function ListingOf(kernel: seq<KernelRule>): seq<seq<string>> {
    if kernel == [] then [] else [ListingLine(kernel[0])] + ListingOf(kernel[1..])
  }

  /** A listing that parses names the kernel's rules in order, each managed exactly when the kernel rule is. */
  lemma {:induction false} ListingReadsBack(kernel: seq<KernelRule>)
    requires forall e :: e in kernel ==> e.Valid()
    ensures
      var read := ReadListing(ListingOf(kernel));
      read.Some? ==>
        && |read.value| == |kernel|
        && forall i :: 0 <= i < |kernel| ==>
             read.value[i].priority == kernel[i].priority && InstalledIpRule(read.value[i]) == Managed(kernel[i])
  {
    if kernel != [] {
      ReadingAgreesWithKernel(kernel[0]);
      PriorityIsRead(kernel[0]);
      ListingReadsBack(kernel[1..]);
      assert ListingOf(kernel)[1..] == ListingOf(kernel[1..]);
    }
  }

  lemma {:induction false} FieldsKeepPriority(tokens: seq<string>, raw: Raw)
    ensures ReadFields(tokens, raw).Some? ==> ReadFields(tokens, raw).value.priority == raw.priority
    decreases |tokens|
  {
    if tokens != [] {
      match FieldName(tokens[0])
      case None => FieldsKeepPriority(tokens[1..], raw.(fields := raw.fields[UNSUPPORTED := ""]));
      case Some(name) =>
        if |tokens| > 1 {
          FieldsKeepPriority(tokens[2..], raw.(fields := raw.fields[name := tokens[1]]));
        }
    }
  }

  lemma PriorityIsRead(e: KernelRule)
    requires e.Valid()
    ensures ReadLine(ListingLine(e)).Some? ==> ReadLine(ListingLine(e)).value.priority == e.priority
  {
    PriorityOfLine(e.priority);
    FieldsKeepPriority(ListingLine(e)[1..], Raw(e.priority, map[]));
  }
}
