/** From a client call to its effect on the daemon: printing, framing and parsing undo each other. */
module CommandWire {
  import opened BmsRuns
  import opened BmsStateMachine
  import opened Doubles
  import opened NanRuns
  import opened OrchestratorClient
  import opened TelemetryServer
  import opened Wrappers

  /** Number formatting on both sides of the connection. */
  datatype Numerals = Numerals(repr: Num -> string, stod: Stod)

  predicate NumberText(t: string) { Printable(t) && '"' !in t }

  /** What the two number formats must satisfy for one value: a printed number is printable and holds no
      quote; a string literal is not read as a number. */
  predicate Agree(num: Numerals, v: Value, readAsNumber: bool) {
    match v
    case NoValue => true
    case Number(x) => NumberText(num.repr(x))
    case Text(s) => readAsNumber ==> num.stod(" " + Quoted(s, "}")) == None
  }

  predicate Readable(num: Numerals, c: Command) { Agree(num, c.value, c.name == "SET_CURRENT") }

  /** What `std::stod` makes of a value where a number is expected: it may reject a printed number, one
      too small to be a normal double for example. */
  function Heard(num: Numerals, v: Value): Option<Num> {
    match v
    case NoValue => Some(Fin(0.0))
    case Number(x) => num.stod(" " + (num.repr(x) + "}"))
    case Text(_) => None
  }

  /** The effect of a command whose value is heard as `current` where a number is expected. */
  function Effective(c: Command, current: Option<Num>): Effect {
    if c.name == "SET_CURRENT" then
      match current
      case Some(n) => Does(SetLoad(n))
      case None => Throws
    else if c.name == "SET_FAULT" then
      if c.value == Text("THERMAL_RUNAWAY") then Does(Ordinary(BlockCooling)) else Ignored
    else if c.name == "RESET" then Does(Ordinary(ResetEvent))
    else Ignored
  }

  function Meaning(num: Numerals, c: Command): Effect { Effective(c, Heard(num, c.value)) }

  /** What the caller asked for, independent of how it travels. */
  function Intent(c: Command): Effect {
    Effective(c, match c.value
                 case NoValue => Some(Fin(0.0))
                 case Number(x) => Some(x)
                 case Text(_) => None)
  }

  /** Reading a printed number gives it back. */
  predicate RoundTrips(num: Numerals, v: Value) { v.Number? ==> Heard(num, v) == Some(v.x) }

  // ----- Searching in a printed line -----

  /** `Find` is the first occurrence, when there is one. */
  lemma {:induction false} FindSpec(s: string, key: string, from: nat)
    ensures var r := Find(s, key, from);
            if r == -1 then forall j :: from <= j ==> !At(s, key, j)
            else At(s, key, r) && forall j :: from <= j < r ==> !At(s, key, j)
    decreases |s| - from
  {
    if from + |key| <= |s| && !At(s, key, from) {
      FindSpec(s, key, from + 1);
    }
  }

  lemma FindIs(s: string, key: string, from: nat, r: nat)
    requires from <= r && At(s, key, r) && forall j :: from <= j < r ==> !At(s, key, j)
    ensures Find(s, key, from) == r
  {
    FindSpec(s, key, from);
  }

  lemma FindNone(s: string, key: string, from: nat)
    requires forall j :: from <= j ==> !At(s, key, j)
    ensures Find(s, key, from) == -1
  {
    FindSpec(s, key, from);
  }

  /** A mismatch in any one place rules an occurrence out. */
  lemma Mismatch(s: string, key: string, j: nat, k: nat)
    requires k < |key| && (j + k < |s| ==> s[j + k] != key[k])
    ensures !At(s, key, j)
  {
    if j + |key| <= |s| {
      assert s[j..j + |key|][k] == s[j + k];
    }
  }

  /** The first quote at or after `from`, when the text from there is e, a quote, and more. */
  lemma FindQuote(s: string, from: nat, e: string, tail: string)
    requires from <= |s| && s[from..] == e + "\"" + tail
    ensures Find(s, "\"", from) == from + QuoteIndex(e)
    ensures s[from..from + QuoteIndex(e)] == UpToQuote(e)
  {
    var k, t := QuoteIndex(e), e + "\"" + tail;
    QuoteIndexConcat(e, tail);
    forall j | from <= j < from + k ensures !At(s, "\"", j) {
      assert s[j] == s[from..][j - from] == t[..k][j - from];
      Mismatch(s, "\"", j, 0);
    }
    assert s[from + k] == s[from..][k] == t[k];
    FindIs(s, "\"", from, from + k);
    assert s[from..from + k] == s[from..][..k] == UpToQuote(t);
  }

  lemma {:induction false} QuoteIndexConcat(e: string, t: string)
    ensures QuoteIndex(e + "\"" + t) == QuoteIndex(e)
    ensures UpToQuote(e + "\"" + t) == UpToQuote(e)
  {
    var s := e + "\"" + t;
    if e != "" && e[0] != '"' {
      assert s[1..] == e[1..] + "\"" + t;
      QuoteIndexConcat(e[1..], t);
    }
  }

  /** An occurrence inside a prefix does not depend on what follows the prefix. */
  lemma AtPrefix(head: string, rest: string, key: string, j: nat)
    requires j + |key| <= |head|
    ensures At(head + rest, key, j) <==> At(head, key, j)
  {
    assert (head + rest)[j..j + |key|] == head[j..j + |key|];
  }

  lemma FindInPrefix(head: string, rest: string, key: string)
    requires Find(head, key, 0) != -1
    ensures Find(head + rest, key, 0) == Find(head, key, 0)
  {
    var pos := Find(head, key, 0);
    FindSpec(head, key, 0);
    forall j | 0 <= j <= pos ensures At(head + rest, key, j) <==> At(head, key, j) {
      AtPrefix(head, rest, key, j);
    }
    FindIs(head + rest, key, 0, pos);
  }

  /** The head of a line up to and including `"key": `. */
  predicate EndsWithKey(head: string, key: string) {
    var pos := Find(head, key, 0);
    pos != -1 && |head| == pos + |key| + 2 && head[pos + |key|] == ':' && head[pos + |key| + 1] == ' '
  }

  lemma QuoteAfterKey(head: string, key: string, rest: string)
    requires EndsWithKey(head, key) && rest != "" && rest[0] == '"'
    ensures Find(head + rest, "\"", |head| - 2) == |head|
  {
    var line, p := head + rest, |head| - 2;
    Mismatch(line, "\"", p, 0);
    Mismatch(line, "\"", p + 1, 0);
    assert line[|head|..|head| + 1] == [rest[0]];
    FindIs(line, "\"", p, |head|);
  }

  lemma AfterOpeningQuote(head: string, rest: string)
    ensures (head + ("\"" + rest))[|head| + 1..] == rest
  {
    var line := head + ("\"" + rest);
    assert line[|head|..] == "\"" + rest;
    assert line[|head| + 1..] == line[|head|..][1..];
  }

  /** Reading a printed string literal: after `"key": "` the parser returns the literal up to its
      first quote. */
  lemma ExtractLiteral(head: string, key: string, e: string, tail: string)
    requires EndsWithKey(head, key)
    ensures ExtractStr(head + ("\"" + (e + "\"" + tail)), key) == UpToQuote(e)
  {
    var text := e + "\"" + tail;
    FindInPrefix(head, "\"" + text, key);
    QuoteAfterKey(head, key, "\"" + text);
    AfterOpeningQuote(head, text);
    FindQuote(head + ("\"" + text), |head| + 1, e, tail);
  }

  // ----- What the parser reads in any line at all -----

  predicate FirstAt(s: string, key: string, k: nat) { At(s, key, k) && forall i :: 0 <= i < k ==> !At(s, key, i) }

  /** The first c at or after `from` stands at i. */
  predicate NextIs(s: string, c: char, from: nat, i: nat) {
    from <= i < |s| && s[i] == c && forall j :: from <= j < i ==> s[j] != c
  }

  predicate NoneFrom(s: string, c: char, from: nat) { forall j :: from <= j < |s| ==> s[j] != c }

  lemma CharAt(s: string, c: char, j: nat)
    ensures At(s, [c], j) <==> j < |s| && s[j] == c
  {
    if j < |s| { assert s[j..j + 1] == [s[j]]; }
  }

  lemma FindChar(s: string, c: char, from: nat)
    ensures var r := Find(s, [c], from); if r == -1 then NoneFrom(s, c, from) else NextIs(s, c, from, r)
  {
    FindSpec(s, [c], from);
    forall j: nat ensures At(s, [c], j) <==> j < |s| && s[j] == c { CharAt(s, c, j); }
  }

  /** The key first stands at k, and the first two quotes behind it at i and j. */
  predicate Quotes(s: string, key: string, k: nat, i: nat, j: nat) {
    FirstAt(s, key, k) && NextIs(s, '"', k + |key|, i) && NextIs(s, '"', i + 1, j)
  }

  lemma FirstAtIsFound(s: string, key: string, k: nat)
    requires FirstAt(s, key, k)
    ensures Find(s, key, 0) == k
  {
    FindIs(s, key, 0, k);
  }

  lemma FoundIsFirstAt(s: string, key: string, k: nat)
    requires Find(s, key, 0) == k
    ensures FirstAt(s, key, k)
  {
    FindSpec(s, key, 0);
  }

  lemma NextIsFound(s: string, c: char, from: nat, i: nat)
    requires NextIs(s, c, from, i)
    ensures Find(s, [c], from) == i
  {
    FindChar(s, c, from);
  }

  lemma FoundIsNext(s: string, c: char, from: nat, i: nat)
    requires Find(s, [c], from) == i
    ensures NextIs(s, c, from, i)
  {
    FindChar(s, c, from);
  }

  /** The three searches of a successful extraction. */
  predicate Searches(s: string, key: string, k: int, i: int, j: int) {
    k >= 0 && i >= 0 && Find(s, key, 0) == k && Find(s, ['"'], k + |key|) == i && Find(s, ['"'], i + 1) == j
  }

  lemma SearchesRead(s: string, key: string, k: int, i: int, j: int)
    requires Searches(s, key, k, i, j) && j >= 0
    ensures i < j < |s| && ExtractStr(s, key) == s[i + 1..j]
  {
    assert "\"" == ['"'];
  }

  lemma TextIsSearched(s: string, key: string) returns (k: int, i: int, j: int)
    requires ExtractStr(s, key) != ""
    ensures Searches(s, key, k, i, j) && j >= 0
  {
    assert "\"" == ['"'];
    k := Find(s, key, 0);
    i := Find(s, "\"", k + |key|);
    j := Find(s, "\"", i + 1);
  }

  /** The parser returns the text between those quotes. */
  lemma QuotedTextIsRead(s: string, key: string, k: nat, i: nat, j: nat)
    requires Quotes(s, key, k, i, j)
    ensures ExtractStr(s, key) == s[i + 1..j]
  {
    assert Searches(s, key, k, i, j) by {
      FirstAtIsFound(s, key, k);
      NextIsFound(s, '"', k + |key|, i);
      NextIsFound(s, '"', i + 1, j);
    }
    SearchesRead(s, key, k, i, j);
  }

  lemma SearchesQuote(s: string, key: string, k: nat, i: nat, j: nat)
    requires Find(s, key, 0) == k && Find(s, ['"'], k + |key|) == i && Find(s, ['"'], i + 1) == j
    ensures Quotes(s, key, k, i, j)
  {
    assert FirstAt(s, key, k) by { FoundIsFirstAt(s, key, k); }
    assert NextIs(s, '"', k + |key|, i) by { FoundIsNext(s, '"', k + |key|, i); }
    assert NextIs(s, '"', i + 1, j) by { FoundIsNext(s, '"', i + 1, j); }
  }

  /** And nothing else: any text it returns stands between them. */
  lemma ReadTextIsQuoted(s: string, key: string, t: string) returns (k: int, i: int, j: int)
    requires ExtractStr(s, key) == t && t != ""
    ensures k >= 0 && i >= 0 && j >= 0 && Quotes(s, key, k, i, j) && i < j && t == s[i + 1..j]
  {
    k, i, j := TextIsSearched(s, key);
    SearchesRead(s, key, k, i, j);
    SearchesQuote(s, key, k, i, j);
  }

  /** The number is read from behind the first colon that follows the key. */
  lemma NumberBehindColon(s: string, key: string, k: nat, i: nat, stod: Stod)
    requires FirstAt(s, key, k) && NextIs(s, ':', k + |key|, i)
    ensures ExtractNum(s, key, stod) == stod(s[i + 1..])
  {
    FirstAtIsFound(s, key, k);
    NextIsFound(s, ':', k + |key|, i);
  }

  /** Without the key it is zero. */
  lemma NoKeyIsZero(s: string, key: string, stod: Stod)
    requires forall k: nat :: !At(s, key, k)
    ensures ExtractNum(s, key, stod) == Some(Fin(0.0))
  {
    FindNone(s, key, 0);
  }

  /** And without a colon behind the key. */
  lemma NoColonIsZero(s: string, key: string, k: nat, stod: Stod)
    requires FirstAt(s, key, k) && NoneFrom(s, ':', k + |key|)
    ensures ExtractNum(s, key, stod) == Some(Fin(0.0))
  {
    FirstAtIsFound(s, key, k);
    FindChar(s, ':', k + |key|);
  }

  /** A parsed literal equals a plain keyword exactly when the printed string did. */
  lemma LiteralIsKeyword(s: string, keyword: string)
    requires Plain(keyword)
    ensures UpToQuote(EscapeAll(s)) == keyword <==> s == keyword
  {
    if Plain(s) {
      EscapePlain(s);
      PlainHasNoQuote(s);
    } else {
      EscapedShowsBackslash(s);
    }
  }

  lemma {:induction false} PlainHasNoQuote(s: string)
    requires Plain(s)
    ensures UpToQuote(s) == s
  {
    assert QuoteIndex(s) < |s| ==> !PlainChar(s[QuoteIndex(s)]);
  }

  // ----- The command name -----

  lemma NameHeadEndsWithKey()
    ensures EndsWithKey(NAME_HEAD, COMMAND_KEY)
  {
    Mismatch(NAME_HEAD, COMMAND_KEY, 0, 0);
    assert NAME_HEAD[1..10] == COMMAND_KEY;
    FindIs(NAME_HEAD, COMMAND_KEY, 0, 1);
  }

  lemma NameIsRead(c: Command, repr: Num -> string)
    ensures ExtractStr(Dumps(c, repr), COMMAND_KEY) == UpToQuote(EscapeAll(c.name))
  {
    NameHeadEndsWithKey();
    ExtractLiteral(NAME_HEAD, COMMAND_KEY, EscapeAll(c.name), Member(c.value, repr));
  }

  // ----- The value -----

  /** Everything printed before the value, for a name printed as itself. */
  function ValuePrefix(name: string): string { NAME_HEAD + "\"" + name + "\"" + VALUE_HEAD }

  lemma DumpsSplitsAtValue(name: string, v: string)
    requires Plain(name)
    ensures NAME_HEAD + Quoted(name, VALUE_HEAD + v) == ValuePrefix(name) + v
  {
    EscapePlain(name);
    Regroup(NAME_HEAD, name, VALUE_HEAD, v);
  }

  lemma Regroup(a: string, e: string, h: string, v: string)
    ensures a + ("\"" + (e + "\"" + (h + v))) == a + "\"" + e + "\"" + h + v
  {}

  lemma ValuePrefixEndsWithKey(name: string)
    requires Plain(name) && name != "" && name[0] != 'v'
    ensures EndsWithKey(ValuePrefix(name), VALUE_KEY)
  {
    var head, n := ValuePrefix(name), |name|;
    forall j | 0 <= j < 16 + n ensures !At(head, VALUE_KEY, j) {
      if j in {1, 9, 12, 13 + n} {
        Mismatch(head, VALUE_KEY, j, 1);
      } else {
        Mismatch(head, VALUE_KEY, j, 0);
      }
    }
    assert head[14 + n..] == VALUE_HEAD;
    assert head[16 + n..23 + n] == VALUE_HEAD[2..9] == VALUE_KEY;
    FindIs(head, VALUE_KEY, 0, 16 + n);
  }

  lemma NumberIsRead(head: string, key: string, v: string, stod: Stod)
    requires EndsWithKey(head, key)
    ensures ExtractNum(head + v, key, stod) == stod(" " + v)
  {
    var line, p := head + v, |head| - 2;
    FindInPrefix(head, v, key);
    assert line[p..p + 1] == ":";
    FindIs(line, ":", p, p);
    assert line[p + 1..] == " " + v;
  }

  lemma QuoteFreeValueReadsEmpty(head: string, key: string, v: string)
    requires EndsWithKey(head, key) && '"' !in v
    ensures ExtractStr(head + v, key) == ""
  {
    var line, p := head + v, |head| - 2;
    FindInPrefix(head, v, key);
    forall j | p <= j ensures !At(line, "\"", j) {
      if |head| <= j < |line| { assert line[j] == v[j - |head|]; }
      Mismatch(line, "\"", j, 0);
    }
    FindNone(line, "\"", p);
  }

  lemma NoValueKey(name: string)
    requires Plain(name) && name != "" && name[0] != 'v'
    ensures Find(NAME_HEAD + Quoted(name, "}"), VALUE_KEY, 0) == -1
  {
    EscapePlain(name);
    var line, n := NAME_HEAD + Quoted(name, "}"), |name|;
    forall j | 0 <= j ensures !At(line, VALUE_KEY, j) {
      if j in {1, 9, 12, 13 + n} {
        Mismatch(line, VALUE_KEY, j, 1);
      } else {
        Mismatch(line, VALUE_KEY, j, 0);
      }
    }
    FindNone(line, VALUE_KEY, 0);
  }

  // ----- Parsing undoes printing -----

  /** A name that cannot be confused with the value key. */
  predicate SafeName(name: string) { Plain(name) && name != "" && name[0] != 'v' }

  lemma PrintedNumberIsRead(name: string, v: string, stod: Stod)
    requires SafeName(name)
    ensures ExtractNum(NAME_HEAD + Quoted(name, VALUE_HEAD + v), VALUE_KEY, stod) == stod(" " + v)
  {
    DumpsSplitsAtValue(name, v);
    ValuePrefixEndsWithKey(name);
    NumberIsRead(ValuePrefix(name), VALUE_KEY, v, stod);
  }

  lemma PrintedNumberHasNoText(name: string, v: string)
    requires SafeName(name) && '"' !in v
    ensures ExtractStr(NAME_HEAD + Quoted(name, VALUE_HEAD + v), VALUE_KEY) == ""
  {
    DumpsSplitsAtValue(name, v);
    ValuePrefixEndsWithKey(name);
    QuoteFreeValueReadsEmpty(ValuePrefix(name), VALUE_KEY, v);
  }

  lemma PrintedTextIsRead(name: string, s: string)
    requires SafeName(name)
    ensures ExtractStr(NAME_HEAD + Quoted(name, VALUE_HEAD + Quoted(s, "}")), VALUE_KEY) == UpToQuote(EscapeAll(s))
  {
    DumpsSplitsAtValue(name, Quoted(s, "}"));
    ValuePrefixEndsWithKey(name);
    ExtractLiteral(ValuePrefix(name), VALUE_KEY, EscapeAll(s), "}");
  }

  lemma CurrentIsRead(num: Numerals, name: string, v: Value)
    requires Agree(num, v, true) && SafeName(name)
    ensures ExtractNum(Dumps(Command(name, v), num.repr), VALUE_KEY, num.stod) == Heard(num, v)
  {
    match v
    case NoValue => NoValueKey(name);
    case Number(x) => PrintedNumberIsRead(name, num.repr(x) + "}", num.stod);
    case Text(s) => PrintedNumberIsRead(name, Quoted(s, "}"), num.stod);
  }

  lemma TextIsRead(num: Numerals, name: string, v: Value, keyword: string)
    requires Agree(num, v, false) && SafeName(name) && Plain(keyword) && keyword != ""
    ensures ExtractStr(Dumps(Command(name, v), num.repr), VALUE_KEY) == keyword <==> v == Text(keyword)
  {
    match v
    case NoValue => NoValueKey(name);
    case Number(x) => PrintedNumberHasNoText(name, num.repr(x) + "}");
    case Text(s) =>
      PrintedTextIsRead(name, s);
      LiteralIsKeyword(s, keyword);
  }

  lemma Decided(line: string, num: Numerals, cmd: string, c: Command)
    requires ExtractStr(line, COMMAND_KEY) == cmd
    requires cmd == "SET_CURRENT" <==> c.name == "SET_CURRENT"
    requires cmd == "SET_FAULT" <==> c.name == "SET_FAULT"
    requires cmd == "RESET" <==> c.name == "RESET"
    requires c.name == "SET_CURRENT" ==> ExtractNum(line, VALUE_KEY, num.stod) == Heard(num, c.value)
    requires c.name == "SET_FAULT" ==>
               (ExtractStr(line, VALUE_KEY) == "THERMAL_RUNAWAY" <==> c.value == Text("THERMAL_RUNAWAY"))
    ensures ParseLine(line, num.stod) == Meaning(num, c)
  {}

  lemma KeywordsAreSafe()
    ensures SafeName("SET_CURRENT") && SafeName("SET_FAULT") && SafeName("RESET") && SafeName("THERMAL_RUNAWAY")
  {}

  /** For every name and value whatsoever, the printed command is parsed to the effect of what is heard. */
  lemma ParseOfPrint(num: Numerals, c: Command)
    requires Readable(num, c)
    ensures ParseLine(Dumps(c, num.repr), num.stod) == Meaning(num, c)
  {
    NameIsRead(c, num.repr);
    KeywordsAreSafe();
    LiteralIsKeyword(c.name, "SET_CURRENT");
    LiteralIsKeyword(c.name, "SET_FAULT");
    LiteralIsKeyword(c.name, "RESET");
    if c.name == "SET_CURRENT" { CurrentIsRead(num, c.name, c.value); }
    if c.name == "SET_FAULT" { TextIsRead(num, c.name, c.value, "THERMAL_RUNAWAY"); }
    Decided(Dumps(c, num.repr), num, UpToQuote(EscapeAll(c.name)), c);
  }

  /** The keyword parser undoes the JSON printer: unless the number of a SET_CURRENT is misread, the
      printed command is parsed to exactly what was asked for. */
  lemma ParseUndoesPrint(num: Numerals, c: Command)
    requires Readable(num, c) && (c.name == "SET_CURRENT" ==> RoundTrips(num, c.value))
    ensures ParseLine(Dumps(c, num.repr), num.stod) == Intent(c)
  {
    ParseOfPrint(num, c);
  }

  // ----- Framing -----

  lemma HeadsPrintable()
    ensures Printable(NAME_HEAD) && Printable(VALUE_HEAD)
  {}

  lemma QuotedPrintable(t: string, rest: string)
    requires Printable(rest)
    ensures Printable(Quoted(t, rest))
  {
    EscapeAllPrintable(t);
  }

  lemma MemberPrintable(v: Value, repr: Num -> string)
    requires v.Number? ==> NumberText(repr(v.x))
    ensures Printable(Member(v, repr))
  {
    HeadsPrintable();
    match v
    case NoValue =>
    case Number(x) => PrintableConcat(VALUE_HEAD, repr(x) + "}");
    case Text(t) =>
      QuotedPrintable(t, "}");
      PrintableConcat(VALUE_HEAD, Quoted(t, "}"));
  }

  lemma DumpsPrintable(num: Numerals, c: Command)
    requires Readable(num, c)
    ensures Printable(Dumps(c, num.repr))
  {
    HeadsPrintable();
    MemberPrintable(c.value, num.repr);
    QuotedPrintable(c.name, Member(c.value, num.repr));
    PrintableConcat(NAME_HEAD, Quoted(c.name, Member(c.value, num.repr)));
  }

  lemma {:induction false} CStrOfPrintable(s: string)
    requires Printable(s)
    ensures CStr(s) == s
  {
    if s != "" { CStrOfPrintable(s[1..]); }
  }

  lemma NoNewlineBefore(line: string, t: string)
    requires '\n' !in line && line <= t
    ensures forall k :: 0 <= k < |line| ==> t[k] != '\n'
  {
    forall k | 0 <= k < |line| ensures t[k] != '\n' { assert t[k] == line[k]; }
  }

  /** Two newline-free lines ended at the same place in one text are the same line. */
  lemma SameLine(a: string, x: string, l: string, y: string)
    requires '\n' !in a && '\n' !in l && a + "\n" + x <= l + "\n" + y
    ensures a == l && x <= y
    ensures a + "\n" + x == l + "\n" + y ==> x == y
  {
    var s, t := a + "\n" + x, l + "\n" + y;
    assert a <= s && l <= t;
    NoNewlineBefore(a, t);
    NoNewlineBefore(l, t);
    assert s[|a|] == t[|a|] == '\n' && t[|l|] == '\n';
    assert x == s[|a| + 1..] && y == t[|l| + 1..];
  }

  // ----- Streams of commands -----

  function Stream(cmds: seq<Command>, repr: Num -> string): string {
    if cmds == [] then "" else Encode(cmds[0], repr) + Stream(cmds[1..], repr)
  }

  function Bytes(ws: seq<Wire>): string {
    if ws == [] then ""
    else
      match ws[0]
      case Byte(c) => [c] + Bytes(ws[1..])
      case PhysicsTick => Bytes(ws[1..])
  }

  /** What a wire history carrying the given commands should do: each command acts at once when its
      line ends, each tick acts where it falls. */
  function Intended(num: Numerals, sv: Server, ws: seq<Wire>, cmds: seq<Command>): Server
    decreases |ws|
  {
    if ws == [] || !sv.up then sv
    else if ws[0] == PhysicsTick then Intended(num, sv.(bms := Cycle(sv.bms)), ws[1..], cmds)
    else if ws[0] == Byte('\n') && cmds != [] then Intended(num, Perform(sv, Meaning(num, cmds[0])), ws[1..], cmds[1..])
    else Intended(num, sv, ws[1..], cmds)
  }

  predicate AllReadable(num: Numerals, cmds: seq<Command>) {
    forall i :: 0 <= i < |cmds| ==> Readable(num, cmds[i])
  }

  /** The line completed by a newline is the next command's. */
  lemma NewlineCompletesCommand(num: Numerals, buf: string, rest: string, cmds: seq<Command>)
    requires AllReadable(num, cmds) && '\n' !in buf
    requires buf + ("\n" + rest) <= Stream(cmds, num.repr)
    ensures cmds != [] && ParseLine(CStr(buf), num.stod) == Meaning(num, cmds[0])
    ensures rest <= Stream(cmds[1..], num.repr)
    ensures buf + ("\n" + rest) == Stream(cmds, num.repr) ==> rest == Stream(cmds[1..], num.repr)
  {
    var line := Dumps(cmds[0], num.repr);
    DumpsPrintable(num, cmds[0]);
    CStrOfPrintable(line);
    ParseOfPrint(num, cmds[0]);
    assert Stream(cmds, num.repr) == line + "\n" + Stream(cmds[1..], num.repr);
    assert buf + ("\n" + rest) == buf + "\n" + rest;
    SameLine(buf, rest, line, Stream(cmds[1..], num.repr));
  }

  lemma NewlineFreeStreamIsEmpty(cmds: seq<Command>, repr: Num -> string)
    ensures '\n' !in Stream(cmds, repr) ==> cmds == []
  {
    if cmds != [] { assert Stream(cmds, repr)[|Dumps(cmds[0], repr)|] == '\n'; }
  }

  lemma {:induction false} IntentIgnoresBuffer(num: Numerals, sv: Server, buf: string,
                                               ws: seq<Wire>, cmds: seq<Command>)
    ensures var i, j := Intended(num, sv, ws, cmds), Intended(num, sv.(buf := buf), ws, cmds);
            i.bms == j.bms && i.up == j.up
    decreases |ws|
  {
    if ws != [] && sv.up {
      if ws[0] == PhysicsTick {
        IntentIgnoresBuffer(num, sv.(bms := Cycle(sv.bms)), buf, ws[1..], cmds);
      } else if ws[0] == Byte('\n') && cmds != [] {
        IntentIgnoresBuffer(num, Perform(sv, Meaning(num, cmds[0])), buf, ws[1..], cmds[1..]);
      } else {
        IntentIgnoresBuffer(num, sv, buf, ws[1..], cmds);
      }
    }
  }

  /** At every moment of a wire history that carries a prefix of a command stream, the server has
      done exactly what was intended; when the whole stream has arrived nothing is left in the buffer. */
  lemma {:induction false} ServerFollowsIntent(num: Numerals, sv: Server, ws: seq<Wire>, cmds: seq<Command>)
    requires AllReadable(num, cmds) && sv.up && '\n' !in sv.buf
    requires sv.buf + Bytes(ws) <= Stream(cmds, num.repr)
    ensures var r, i := Serve(sv, ws, num.stod), Intended(num, sv, ws, cmds);
            && r.bms == i.bms && r.up == i.up
            && (r.up && sv.buf + Bytes(ws) == Stream(cmds, num.repr) ==> r.buf == "")
    decreases |ws|, 0
  {
    if ws == [] {
      NewlineFreeStreamIsEmpty(cmds, num.repr);
    } else {
      var rest := ws[1..];
      match ws[0]
      case PhysicsTick =>
        ServerFollowsIntent(num, sv.(bms := Cycle(sv.bms)), rest, cmds);
      case Byte(c) =>
        if c != '\n' {
          assert sv.buf + Bytes(ws) == sv.buf + [c] + Bytes(rest);
          ByteStep(num, sv, c, rest, cmds);
        } else {
          NewlineCompletesCommand(num, sv.buf, Bytes(rest), cmds);
          NewlineStep(num, sv, rest, cmds);
        }
    }
  }

  lemma {:induction false} ByteStep(num: Numerals, sv: Server, c: char, rest: seq<Wire>, cmds: seq<Command>)
    requires AllReadable(num, cmds) && sv.up && c != '\n' && '\n' !in sv.buf
    requires sv.buf + [c] + Bytes(rest) <= Stream(cmds, num.repr)
    ensures var r := Serve(WireStep(sv, Byte(c), num.stod), rest, num.stod);
            var i := Intended(num, sv, rest, cmds);
            && r.bms == i.bms && r.up == i.up
            && (r.up && sv.buf + [c] + Bytes(rest) == Stream(cmds, num.repr) ==> r.buf == "")
    decreases |rest|, 1
  {
    ServerFollowsIntent(num, sv.(buf := sv.buf + [c]), rest, cmds);
    IntentIgnoresBuffer(num, sv, sv.buf + [c], rest, cmds);
  }

  lemma {:induction false} NewlineStep(num: Numerals, sv: Server, rest: seq<Wire>, cmds: seq<Command>)
    requires AllReadable(num, cmds) && sv.up && cmds != []
    requires ParseLine(CStr(sv.buf), num.stod) == Meaning(num, cmds[0])
    requires Bytes(rest) <= Stream(cmds[1..], num.repr)
    ensures var r := Serve(WireStep(sv, Byte('\n'), num.stod), rest, num.stod);
            var i := Intended(num, Perform(sv, Meaning(num, cmds[0])), rest, cmds[1..]);
            && r.bms == i.bms && r.up == i.up
            && (r.up && Bytes(rest) == Stream(cmds[1..], num.repr) ==> r.buf == "")
    decreases |rest|, 1
  {
    var sv1 := Perform(sv, Meaning(num, cmds[0]));
    IntentIgnoresBuffer(num, sv1, "", rest, cmds[1..]);
    if sv1.up {
      ServerFollowsIntent(num, sv1.(buf := ""), rest, cmds[1..]);
    } else {
      DownStaysDown(sv1.(buf := ""), rest, num.stod);
    }
  }

  lemma {:induction false} DownStaysDown(sv: Server, ws: seq<Wire>, stod: Stod)
    requires !sv.up
    ensures Serve(sv, ws, stod) == sv
    decreases |ws|
  {
    if ws != [] { DownStaysDown(sv, ws[1..], stod); }
  }

  // ----- End to end -----

  /** The one kind of command the daemon does not survive: a SET_CURRENT whose value `std::stod` throws
      on, be it a string or a number it rejects. */
  predicate Fatal(num: Numerals, c: Command) { c.name == "SET_CURRENT" && Heard(num, c.value) == None }

  /** No command of the list is fatal. */
  predicate Survivable(num: Numerals, cmds: seq<Command>) {
    cmds != [] ==> !Fatal(num, cmds[0]) && Survivable(num, cmds[1..])
  }

  /** What the daemon is told, in order, by a wire history that carries the given commands. */
  function Events(num: Numerals, ws: seq<Wire>, cmds: seq<Command>): seq<Signal> {
    if ws == [] then []
    else if ws[0] == PhysicsTick then [Ordinary(TickEvent)] + Events(num, ws[1..], cmds)
    else if ws[0] == Byte('\n') && cmds != [] then
      match Meaning(num, cmds[0])
      case Does(s) => [s] + Events(num, ws[1..], cmds[1..])
      case _ => Events(num, ws[1..], cmds[1..])
    else Events(num, ws[1..], cmds)
  }

  function Newlines(ws: seq<Wire>): nat {
    if ws == [] then 0 else (if ws[0] == Byte('\n') then 1 else 0) + Newlines(ws[1..])
  }

  lemma {:induction false} IntentIsARun(num: Numerals, sv: Server, ws: seq<Wire>, cmds: seq<Command>)
    requires sv.up && Newlines(ws) == |cmds|
    ensures var r := Intended(num, sv, ws, cmds);
            && (r.up <==> Survivable(num, cmds))
            && (r.up ==> r.bms == Steps(sv.bms, Events(num, ws, cmds)))
    decreases |ws|
  {
    if ws != [] {
      var rest := ws[1..];
      if ws[0] == PhysicsTick {
        IntentIsARun(num, sv.(bms := Cycle(sv.bms)), rest, cmds);
        StepsCons(sv.bms, Ordinary(TickEvent), Events(num, rest, cmds));
      } else if ws[0] == Byte('\n') {
        var effect := Meaning(num, cmds[0]);
        var sv1 := Perform(sv, effect);
        if sv1.up {
          IntentIsARun(num, sv1, rest, cmds[1..]);
          if effect.Does? { StepsCons(sv.bms, effect.signal, Events(num, rest, cmds[1..])); }
        }
      } else {
        IntentIsARun(num, sv, rest, cmds);
      }
    }
  }

  lemma StepsCons(m: Bms, s: Signal, ss: seq<Signal>)
    ensures Steps(m, [s] + ss) == Steps(React(m, s), ss)
  {
    assert ([s] + ss)[1..] == ss;
  }

  lemma {:induction false} StreamNewlines(num: Numerals, ws: seq<Wire>, cmds: seq<Command>)
    requires AllReadable(num, cmds) && Bytes(ws) == Stream(cmds, num.repr)
    ensures Newlines(ws) == |cmds|
  {
    CountBytes(ws);
    CountStream(num, cmds);
  }

  function Count(s: string): nat {
    if s == "" then 0 else (if s[0] == '\n' then 1 else 0) + Count(s[1..])
  }

  lemma {:induction false} CountConcat(a: string, b: string)
    ensures Count(a + b) == Count(a) + Count(b)
  {
    if a == "" {
      assert a + b == b;
    } else {
      assert (a + b)[1..] == a[1..] + b;
      CountConcat(a[1..], b);
    }
  }

  lemma {:induction false} CountBytes(ws: seq<Wire>)
    ensures Count(Bytes(ws)) == Newlines(ws)
  {
    if ws != [] {
      CountBytes(ws[1..]);
      match ws[0]
      case Byte(c) => CountConcat([c], Bytes(ws[1..]));
      case PhysicsTick =>
    }
  }

  lemma {:induction false} CountPrintable(s: string)
    requires Printable(s)
    ensures Count(s) == 0
  {
    if s != "" { CountPrintable(s[1..]); }
  }

  lemma {:induction false} CountStream(num: Numerals, cmds: seq<Command>)
    requires AllReadable(num, cmds)
    ensures Count(Stream(cmds, num.repr)) == |cmds|
  {
    if cmds != [] {
      var line, rest := Dumps(cmds[0], num.repr), Stream(cmds[1..], num.repr);
      DumpsPrintable(num, cmds[0]);
      CountPrintable(line);
      CountConcat(line, "\n");
      CountConcat(line + "\n", rest);
      CountStream(num, cmds[1..]);
    }
  }

  /** Bytes to effect. However the bytes of a command stream interleave with physics ticks: the process
      survives exactly when `std::stod` accepts the value of every SET_CURRENT, and then the daemon has
      done what the commands say, each where its line ended, and the buffer is empty. */
  lemma BytesToEffect(num: Numerals, m: Bms, ws: seq<Wire>, cmds: seq<Command>)
    requires AllReadable(num, cmds) && Bytes(ws) == Stream(cmds, num.repr)
    ensures var r := Serve(Server(m, "", true), ws, num.stod);
            && (r.up <==> Survivable(num, cmds))
            && (r.up ==> r == Server(Steps(m, Events(num, ws, cmds)), "", true))
  {
    var sv := Server(m, "", true);
    assert "" + Bytes(ws) == Bytes(ws);
    ServerFollowsIntent(num, sv, ws, cmds);
    StreamNewlines(num, ws, cmds);
    IntentIsARun(num, sv, ws, cmds);
  }
}
