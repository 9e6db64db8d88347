/**
The rendered catalog read back (apps/shell/src/main/mcp-home.ts, renderManagedPatch): a reader of its
own for the text, by the grammar of its values, and the proof that it gets back what was rendered.
Strings are JSON, by section 7 of RFC 8259.
*/
module PatchText {
  import opened Common
  import opened ManagedPatch

  // ---- reading a string ----

  function HexValue(c: char): Option<int> {
    if '0' <= c <= '9' then Some(c as int - '0' as int)
    else if 'a' <= c <= 'f' then Some(c as int - 'a' as int + 10)
    else if 'A' <= c <= 'F' then Some(c as int - 'A' as int + 10)
    else None
  }

  /** The code unit in four hexadecimal digits; surrogates are not part of this model. */
  function ReadUnit(t: string): (r: Option<char>)
    requires |t| >= 4
  {
    var a, b, c, d := HexValue(t[0]), HexValue(t[1]), HexValue(t[2]), HexValue(t[3]);
    if a.None? || b.None? || c.None? || d.None? then None
    else
      var n := ((a.value * 16 + b.value) * 16 + c.value) * 16 + d.value;
      if 0 <= n < 0xD800 || 0xE000 <= n < 0x1_0000 then Some(n as char) else None
  }

  /** What follows a reverse solidus. */
  function ReadEscape(t: string): (r: Option<(char, string)>)
    ensures r.Some? ==> |r.value.1| < |t|
  {
    if t == "" then None
    else match t[0]
         case '"' => Some(('"', t[1..]))
         case '\\' => Some(('\\', t[1..]))
         case '/' => Some(('/', t[1..]))
         case 'b' => Some(('\U{08}', t[1..]))
         case 'f' => Some(('\U{0C}', t[1..]))
         case 'n' => Some(('\n', t[1..]))
         case 'r' => Some(('\r', t[1..]))
         case 't' => Some(('\t', t[1..]))
         case 'u' => if |t| >= 5 && ReadUnit(t[1..]).Some? then Some((ReadUnit(t[1..]).value, t[5..])) else None
         case _ => None
  }

  /** The characters up to the closing quotation mark, and what follows it. */
  function ReadString(t: string): (r: Option<(string, string)>)
    ensures r.Some? ==> |r.value.1| < |t|
    decreases |t|
  {
    if t == "" then None
    else if t[0] == '"' then Some(("", t[1..]))
    else if t[0] == '\\' then
      match ReadEscape(t[1..])
      case None => None
      case Some((c, rest)) => Prepend(c, ReadString(rest))
    else if t[0] < ' ' then None
    else Prepend(t[0], ReadString(t[1..]))
  }

  function Prepend(c: char, r: Option<(string, string)>): (p: Option<(string, string)>)
    ensures p.Some? <==> r.Some?
    ensures p.Some? ==> p.value.1 == r.value.1
  {
    match r
    case None => None
    case Some((s, rest)) => Some(([c] + s, rest))
  }

  function ReadJson(t: string): Option<(string, string)> {
    if t != "" && t[0] == '"' then ReadString(t[1..]) else None
  }

  lemma HexDigitsRead(n: int)
    requires 0 <= n < 16
    ensures HexValue(HexDigit(n)) == Some(n)
  {
    if n < 10 {
      assert "0123456789abcdef"[n] == '0' + n as char;
    } else {
      assert "0123456789abcdef"[n] == 'a' + (n - 10) as char;
    }
  }

  predicate Short(c: char) {
    c in "\"\\\U{08}\t\n\U{0C}\r"
  }

  lemma ShortEscape(c: char)
    requires Short(c)
    ensures |EscapeChar(c)| == 2 && EscapeChar(c)[0] == '\\'
    ensures ReadEscape([EscapeChar(c)[1]]) == Some((c, ""))
  {
  }

  lemma LongEscape(c: char)
    requires c < ' ' && !Short(c)
    ensures EscapeChar(c) == "\\u00" + [HexDigit(c as int / 16), HexDigit(c as int % 16)]
  {
  }

  lemma UnitReadsBack(c: char, rest: string)
    requires c < ' '
    ensures ReadEscape("u00" + [HexDigit(c as int / 16), HexDigit(c as int % 16)] + rest) == Some((c, rest))
  {
    var t := "u00" + [HexDigit(c as int / 16), HexDigit(c as int % 16)] + rest;
    HexDigitsRead(c as int / 16);
    HexDigitsRead(c as int % 16);
    assert HexValue('0') == Some(0);
    assert t[5..] == rest && ReadUnit(t[1..]) == Some(c);
  }

  lemma EscapeAhead(c: char, t: string, rest: string)
    requires t != "" && t[0] == '\\' && ReadEscape(t[1..]) == Some((c, rest))
    ensures ReadString(t) == Prepend(c, ReadString(rest))
  {
  }

  lemma CharReadsBack(c: char, rest: string)
    ensures ReadString(EscapeChar(c) + rest) == Prepend(c, ReadString(rest))
  {
    var t := EscapeChar(c) + rest;
    if Short(c) {
      ShortEscape(c);
      hide EscapeChar, ReadString, Short;
      assert t[1..] == [EscapeChar(c)[1]] + rest && t[1..][1..] == rest;
      EscapeAhead(c, t, rest);
    } else if c < ' ' {
      LongEscape(c);
      UnitReadsBack(c, rest);
      hide EscapeChar, ReadString, ReadEscape, Short;
      assert t[1..] == "u00" + [HexDigit(c as int / 16), HexDigit(c as int % 16)] + rest;
      EscapeAhead(c, t, rest);
    } else {
      assert EscapeChar(c) == [c];
      assert t[1..] == rest;
    }
  }

  lemma {:induction false} StringReadsBack(s: string, rest: string)
    ensures ReadString(EscapeAll(s) + "\"" + rest) == Some((s, rest))
  {
    if s == "" {
      assert (EscapeAll(s) + "\"" + rest)[1..] == rest;
    } else {
      hide EscapeChar;
      var more := EscapeAll(s[1..]) + "\"" + rest;
      assert EscapeAll(s) + "\"" + rest == EscapeChar(s[0]) + more;
      CharReadsBack(s[0], more);
      StringReadsBack(s[1..], rest);
      assert [s[0]] + s[1..] == s;
    }
  }

  /** JSON.parse undoes JSON.stringify, whatever follows. */
  lemma JsonReadsBack(s: string, rest: string)
    ensures ReadJson(Json(s) + rest) == Some((s, rest))
  {
    StringReadsBack(s, rest);
    assert (Json(s) + rest)[1..] == EscapeAll(s) + "\"" + rest;
  }

  // ---- reading values and lists ----

  const CALL := "!!js process.cwd()"

  function ReadValue(t: string): (r: Option<(string, string)>)
    ensures r.Some? ==> |r.value.1| < |t|
  {
    if CALL <= t then Some(("$process.cwd", t[|CALL|..])) else ReadJson(t)
  }

  /** The values up to the closing bracket. */
  function ReadItems(t: string): Option<(seq<string>, string)>
    decreases |t|
  {
    if t != "" && t[0] == ']' then Some(([], t[1..]))
    else match ReadValue(t)
         case None => None
         case Some((v, rest)) =>
           if rest != "" && rest[0] == ']' then Some(([v], rest[1..]))
           else if ", " <= rest then
             match ReadItems(rest[2..])
             case None => None
             case Some((values, end)) => Some(([v] + values, end))
           else None
  }

  lemma ValueReadsBack(value: string, rest: string)
    ensures ReadValue(YamlValue(value) + rest) == Some((value, rest))
    ensures YamlValue(value) != "" && YamlValue(value)[0] != ']'
  {
    if value == PROCESS_CWD {
      assert (CALL + rest)[|CALL|..] == rest;
    } else {
      JsonReadsBack(value, rest);
      assert (Json(value) + rest)[0] == '"';
    }
  }

  lemma LastItem(t: string, value: string, rest: string)
    requires t != "" && t[0] != ']' && ReadValue(t) == Some((value, "]" + rest))
    ensures ReadItems(t) == Some(([value], rest))
  {
    assert ("]" + rest)[1..] == rest;
  }

  lemma NextItem(t: string, value: string, more: string)
    requires t != "" && t[0] != ']' && ReadValue(t) == Some((value, ", " + more))
    ensures ReadItems(t) == match ReadItems(more)
                            case None => None
                            case Some((values, end)) => Some(([value] + values, end))
  {
    assert (", " + more)[2..] == more;
  }

  lemma {:induction false} ItemsReadBack(values: seq<string>, rest: string)
    ensures ReadItems(YamlList(values) + "]" + rest) == Some((values, rest))
  {
    hide YamlValue, ReadValue;
    var t := YamlList(values) + "]" + rest;
    if values == [] {
      assert t[1..] == rest;
    } else {
      hide ReadItems;
      var first, more := YamlValue(values[0]), YamlList(values[1..]) + "]" + rest;
      if |values| == 1 {
        assert t == first + ("]" + rest) && values == [values[0]];
        ValueReadsBack(values[0], "]" + rest);
        LastItem(t, values[0], rest);
      } else {
        assert t == first + (", " + more) && values == [values[0]] + values[1..];
        ValueReadsBack(values[0], ", " + more);
        NextItem(t, values[0], more);
        ItemsReadBack(values[1..], rest);
      }
    }
  }

  // ---- reading a line ----

  function Field(line: string, prefix: string): Option<string> {
    if prefix <= line then
      match ReadJson(line[|prefix|..])
      case Some((v, "")) => Some(v)
      case _ => None
    else None
  }

  function ValueField(line: string, prefix: string): Option<string> {
    if prefix <= line then
      match ReadValue(line[|prefix|..])
      case Some((v, "")) => Some(v)
      case _ => None
    else None
  }

  function ListField(line: string, prefix: string): Option<seq<string>> {
    if prefix <= line then
      match ReadItems(line[|prefix|..])
      case Some((values, "")) => Some(values)
      case _ => None
    else None
  }

  lemma FieldReadsBack(prefix: string, s: string)
    ensures Field(prefix + Json(s), prefix) == Some(s)
  {
    JsonReadsBack(s, "");
    assert (prefix + Json(s))[|prefix|..] == Json(s) + "";
  }

  lemma ValueFieldReadsBack(prefix: string, value: string)
    ensures ValueField(prefix + YamlValue(value), prefix) == Some(value)
  {
    ValueReadsBack(value, "");
    assert (prefix + YamlValue(value))[|prefix|..] == YamlValue(value) + "";
  }

  lemma ListFieldReadsBack(prefix: string, values: seq<string>)
    ensures ListField(prefix + YamlList(values) + "]", prefix) == Some(values)
  {
    hide ReadItems, YamlList;
    var line := prefix + YamlList(values) + "]";
    ItemsReadBack(values, "");
    assert line[|prefix|..] == YamlList(values) + "]" + "";
  }

  // ---- reading a server ----

  const RECONNECT := [
    "    failOnStartupError: false", "    reconnect:", "      enabled: true", "      initialDelayMs: 500",
    "      maxDelayMs: 30000", "      maxAttempts: 10"]

  const NAME := "  name: " + "\"@deepseek-ai/dsh-mcp-client\""
  const MODE := "  disabled: " + ("!!js process.env." + "FREECODE_WEB_MODE === '1'")
  const OFF := "  disabled: " + "true"

  /** The id, and whether the row is enabled: only then is it disabled by the mode of the host alone. */
  function ReadEntry(lines: seq<string>): Option<(string, bool)>
    requires |lines| >= 4
  {
    var id := Field(lines[0], "- id: ");
    if id.None? || !("freecode-mcp-" <= id.value) then None
    else if lines[1] != NAME || lines[3] != "  config:" then None
    else if lines[2] != MODE && lines[2] != OFF then None
    else Some((id.value[|"freecode-mcp-"|..], lines[2] == MODE))
  }

  datatype Command = Command(transport: string, serverName: string, command: string, args: seq<string>, cwd: string)

  function ReadCommand(lines: seq<string>): Option<Command>
    requires |lines| >= 5
  {
    var transport, serverName := Field(lines[0], "    transport: "), Field(lines[1], "    serverName: ");
    var command, args := Field(lines[2], "    command: "), ListField(lines[3], "    args: [");
    var cwd := ValueField(lines[4], "    cwd: ");
    if transport.None? || serverName.None? || command.None? || args.None? || cwd.None? then None
    else Some(Command(transport.value, serverName.value, command.value, args.value, cwd.value))
  }

  /** The activation, if there is one, and the lines after it. */
  function ReadActivation(lines: seq<string>): Option<(Option<(string, string)>, seq<string>)>
    requires |lines| >= 3
  {
    if lines[0] != "    projectActivation:" then Some((None, lines))
    else
      var toolName, pathArgument := Field(lines[1], "      toolName: "), Field(lines[2], "      pathArgument: ");
      if toolName.None? || pathArgument.None? then None
      else Some((Some((toolName.value, pathArgument.value)), lines[3..]))
  }

  /** One server, and the lines after it. */
  function ReadServer(lines: seq<string>): (r: Option<(Server, seq<string>)>)
    ensures r.Some? ==> |r.value.1| < |lines|
  {
    if |lines| < 15 then None
    else
      var entry, command := ReadEntry(lines), ReadCommand(lines[4..]);
      var activation := ReadActivation(lines[9..]);
      if entry.None? || command.None? || activation.None? || !(RECONNECT <= activation.value.1) then None
      else
        var c := command.value;
        Some((Server(entry.value.0, c.serverName, c.transport, c.command, c.args, c.cwd, activation.value.0, entry.value.1),
              activation.value.1[|RECONNECT|..]))
  }

  lemma EntryReadsBack(server: Server, lines: seq<string>)
    requires EntryLines(server) <= lines
    ensures ReadEntry(lines) == Some((server.id, server.enabled))
  {
    hide Field, Json;
    var id := "freecode-mcp-" + server.id;
    FieldReadsBack("- id: ", id);
    assert lines[0] == EntryLines(server)[0] && lines[1] == EntryLines(server)[1];
    assert lines[2] == EntryLines(server)[2] && lines[3] == EntryLines(server)[3];
    assert id[|"freecode-mcp-"|..] == server.id;
    FixedLines(server.enabled);
    hide NameLine, DisabledLine;
  }

  lemma FixedLines(enabled: bool)
    ensures NameLine() == NAME
    ensures DisabledLine(enabled) == if enabled then MODE else OFF
    ensures MODE != OFF
  {
    assert MODE[12] == '!' && OFF[12] == 't';
  }

  lemma CommandReadsBack(server: Server, lines: seq<string>)
    requires CommandLines(server) <= lines
    ensures ReadCommand(lines)
            == Some(Command(server.transport, server.serverName, server.command, server.args, server.cwd))
  {
    hide Field, ValueField, ListField, Json, YamlList, YamlValue;
    var c := CommandLines(server);
    FieldReadsBack("    transport: ", server.transport);
    FieldReadsBack("    serverName: ", server.serverName);
    FieldReadsBack("    command: ", server.command);
    ListFieldReadsBack("    args: [", server.args);
    ValueFieldReadsBack("    cwd: ", server.cwd);
    assert lines[0] == c[0] && lines[1] == c[1] && lines[2] == c[2] && lines[3] == c[3] && lines[4] == c[4];
  }

  lemma ActivationReadsBack(server: Server, lines: seq<string>, rest: seq<string>)
    requires lines == ActivationLines(server) + rest && |rest| >= 3 && rest[0] == "    failOnStartupError: false"
    ensures ReadActivation(lines) == Some((server.projectActivation, rest))
  {
    hide Field, Json;
    if server.projectActivation.Some? {
      var (toolName, pathArgument) := server.projectActivation.value;
      FieldReadsBack("      toolName: ", toolName);
      FieldReadsBack("      pathArgument: ", pathArgument);
      assert lines[3..] == rest;
    } else {
      assert lines == rest && "    failOnStartupError: false"[4] == 'f' && "    projectActivation:"[4] == 'p';
    }
  }

  lemma ServerReadsBack(server: Server, rest: seq<string>)
    ensures ReadServer(ServerLines(server) + rest) == Some((server, rest))
  {
    hide EntryLines, CommandLines, ActivationLines, ReconnectLines, ReadEntry, ReadCommand, ReadActivation;
    var lines := ServerLines(server) + rest;
    var tail := ReconnectLines() + rest;
    LineCounts(server);
    EntryReadsBack(server, lines);
    assert lines[4..] == CommandLines(server) + (ActivationLines(server) + tail);
    CommandReadsBack(server, lines[4..]);
    assert lines[9..] == ActivationLines(server) + tail;
    ActivationReadsBack(server, lines[9..], tail);
    assert tail[|RECONNECT|..] == rest;
  }

  lemma LineCounts(server: Server)
    ensures |EntryLines(server)| == 4 && |CommandLines(server)| == 5
    ensures ReconnectLines() == RECONNECT && |RECONNECT| == 6 && RECONNECT[0] == "    failOnStartupError: false"
  {
  }

  // ---- reading the text ----

  function LineEnd(t: string): (k: nat)
    ensures k <= |t| && (k < |t| ==> t[k] == '\n') && forall j :: 0 <= j < k ==> t[j] != '\n'
  {
    if t == "" || t[0] == '\n' then 0 else LineEnd(t[1..]) + 1
  }

  /** The lines of a text, each ended by a line feed. */
  function LinesOf(t: string): seq<string>
    decreases |t|
  {
    if t == "" then []
    else if LineEnd(t) == |t| then [t]
    else [t[..LineEnd(t)]] + LinesOf(t[LineEnd(t) + 1..])
  }

  predicate OneLine(line: string) {
    '\n' !in line
  }

  ghost predicate AllOneLine(lines: seq<string>) {
    forall i :: 0 <= i < |lines| ==> OneLine(lines[i])
  }

  lemma FirstLineEnds(line: string, rest: string)
    requires OneLine(line)
    ensures LineEnd(line + "\n" + rest) == |line|
  {
    var t := line + "\n" + rest;
    var k := LineEnd(t);
    assert t[|line|] == '\n' && forall j :: 0 <= j < |line| ==> t[j] == line[j] != '\n';
  }

  lemma {:induction false} LinesReadBack(lines: seq<string>)
    requires AllOneLine(lines)
    ensures LinesOf(JoinLines(lines)) == lines
  {
    hide LineEnd, OneLine;
    if lines != [] {
      var rest := JoinLines(lines[1..]);
      var t := lines[0] + "\n" + rest;
      assert OneLine(lines[0]);
      FirstLineEnds(lines[0], rest);
      assert t[..|lines[0]|] == lines[0] && t[|lines[0]| + 1..] == rest;
      LinesReadBack(lines[1..]);
    }
  }

  // ---- no field breaks a line ----

  lemma OneLineConcat(a: string, b: string)
    ensures OneLine(a + b) <==> OneLine(a) && OneLine(b)
  {
  }

  lemma EscapedIsOneLine(c: char)
    ensures OneLine(EscapeChar(c))
  {
    if |EscapeChar(c)| == 6 {
      HexDigitsRead(c as int / 16);
      HexDigitsRead(c as int % 16);
    }
  }

  lemma {:induction false} JsonIsOneLine(s: string)
    ensures OneLine(EscapeAll(s)) && OneLine(Json(s))
  {
    if s != "" {
      EscapedIsOneLine(s[0]);
      JsonIsOneLine(s[1..]);
      OneLineConcat(EscapeChar(s[0]), EscapeAll(s[1..]));
      hide EscapeChar;
    }
    assert OneLine("\"");
    OneLineConcat("\"", EscapeAll(s));
    OneLineConcat("\"" + EscapeAll(s), "\"");
  }

  lemma ValueIsOneLine(value: string)
    ensures OneLine(YamlValue(value))
  {
    hide Json, OneLine;
    CallIsOneLine();
    JsonIsOneLine(value);
  }

  lemma CallIsOneLine()
    ensures OneLine(CALL)
  {
  }

  lemma {:induction false} ListIsOneLine(values: seq<string>)
    ensures OneLine(YamlList(values))
  {
    if values != [] {
      ValueIsOneLine(values[0]);
      ListIsOneLine(values[1..]);
      assert OneLine(", ");
      OneLineConcat(YamlValue(values[0]), ", ");
      OneLineConcat(YamlValue(values[0]) + ", ", YamlList(values[1..]));
    }
    hide YamlValue;
  }

  lemma LabelledIsOneLine(prefix: string, s: string)
    requires OneLine(prefix)
    ensures OneLine(prefix + Json(s)) && OneLine(prefix + YamlValue(s))
  {
    JsonIsOneLine(s);
    ValueIsOneLine(s);
    OneLineConcat(prefix, Json(s));
    OneLineConcat(prefix, YamlValue(s));
    hide OneLine;
  }

  lemma AllOneLineConcat(a: seq<string>, b: seq<string>)
    requires AllOneLine(a) && AllOneLine(b)
    ensures AllOneLine(a + b)
  {
  }

  lemma EntryTextsAreOneLine()
    ensures OneLine("- id: ") && OneLine("  config:") && OneLine("  name: ") && OneLine("\"@deepseek-ai/dsh-mcp-client\"")
  {
  }

  lemma DisabledTextsAreOneLine()
    ensures OneLine("  disabled: ") && OneLine("true") && OneLine("!!js process.env.") && OneLine("FREECODE_WEB_MODE === '1'")
  {
  }

  lemma EntryIsOneLineEach(server: Server)
    ensures AllOneLine(EntryLines(server))
  {
    hide Json;
    hide OneLine;
    EntryTextsAreOneLine();
    DisabledTextsAreOneLine();
    LabelledIsOneLine("- id: ", "freecode-mcp-" + server.id);
    OneLineConcat("  name: ", "\"@deepseek-ai/dsh-mcp-client\"");
    OneLineConcat("!!js process.env.", "FREECODE_WEB_MODE === '1'");
    OneLineConcat("  disabled: ", if server.enabled then "!!js process.env." + "FREECODE_WEB_MODE === '1'" else "true");
  }

  lemma CommandIsOneLineEach(server: Server)
    ensures AllOneLine(CommandLines(server))
  {
    hide Json, YamlValue, YamlList;
    assert OneLine("    transport: ") && OneLine("    serverName: ") && OneLine("    command: ");
    assert OneLine("    args: [") && OneLine("]") && OneLine("    cwd: ");
    hide OneLine;
    LabelledIsOneLine("    transport: ", server.transport);
    LabelledIsOneLine("    serverName: ", server.serverName);
    LabelledIsOneLine("    command: ", server.command);
    ListIsOneLine(server.args);
    OneLineConcat("    args: [", YamlList(server.args));
    OneLineConcat("    args: [" + YamlList(server.args), "]");
    LabelledIsOneLine("    cwd: ", server.cwd);
  }

  lemma ActivationIsOneLineEach(server: Server)
    ensures AllOneLine(ActivationLines(server))
  {
    hide Json;
    if server.projectActivation.Some? {
      var (toolName, pathArgument) := server.projectActivation.value;
      assert OneLine("    projectActivation:") && OneLine("      toolName: ") && OneLine("      pathArgument: ");
      hide OneLine;
      LabelledIsOneLine("      toolName: ", toolName);
      LabelledIsOneLine("      pathArgument: ", pathArgument);
    }
  }

  lemma ReconnectIsOneLineEach()
    ensures AllOneLine(ReconnectLines())
  {
    assert OneLine("    failOnStartupError: false") && OneLine("    reconnect:") && OneLine("      enabled: true");
    assert OneLine("      initialDelayMs: 500") && OneLine("      maxDelayMs: 30000") && OneLine("      maxAttempts: 10");
    hide OneLine;
  }

  lemma ServerIsOneLineEach(server: Server)
    ensures AllOneLine(ServerLines(server))
  {
    EntryIsOneLineEach(server);
    CommandIsOneLineEach(server);
    ActivationIsOneLineEach(server);
    ReconnectIsOneLineEach();
    AllOneLineConcat(EntryLines(server), CommandLines(server));
    AllOneLineConcat(EntryLines(server) + CommandLines(server), ActivationLines(server));
    AllOneLineConcat(EntryLines(server) + CommandLines(server) + ActivationLines(server), ReconnectLines());
    hide EntryLines, CommandLines, ActivationLines, ReconnectLines, AllOneLine;
  }

  lemma {:induction false} CatalogIsOneLineEach(servers: seq<Server>)
    ensures AllOneLine(AllServerLines(servers))
  {
    if servers != [] {
      var n := |servers| - 1;
      CatalogIsOneLineEach(servers[..n]);
      ServerIsOneLineEach(servers[n]);
      AllOneLineConcat(AllServerLines(servers[..n]), ServerLines(servers[n]));
      hide ServerLines, AllOneLine;
    }
  }

  // ---- reading a catalog ----

  /** Servers up to the end marker, which is the last line. */
  function ReadServers(lines: seq<string>): Option<seq<Server>>
    decreases |lines|
  {
    if lines == [END] then Some([])
    else match ReadServer(lines)
         case None => None
         case Some((server, rest)) =>
           match ReadServers(rest)
           case None => None
           case Some(servers) => Some([server] + servers)
  }

  function ReadCatalog(text: string): Option<seq<Server>> {
    var lines := LinesOf(text);
    if |lines| >= 4 && lines[0] == BEGIN && lines[1] == Note1() && lines[2] == Note2() then ReadServers(lines[3..])
    else None
  }

  lemma {:induction false} FirstServerFirst(servers: seq<Server>)
    requires servers != []
    ensures AllServerLines(servers) == ServerLines(servers[0]) + AllServerLines(servers[1..])
  {
    hide ServerLines;
    var n := |servers| - 1;
    if n > 0 {
      FirstServerFirst(servers[..n]);
      assert servers[..n][1..] == servers[1..][..n - 1];
    } else {
      assert servers[..0] == [];
    }
  }

  lemma {:induction false} ServersReadBack(servers: seq<Server>)
    ensures ReadServers(AllServerLines(servers) + [END]) == Some(servers)
  {
    hide ServerLines, ReadServer;
    if servers == [] {
      assert AllServerLines(servers) + [END] == [END];
    } else {
      FirstServerFirst(servers);
      var rest := AllServerLines(servers[1..]) + [END];
      assert AllServerLines(servers) + [END] == ServerLines(servers[0]) + rest;
      ServerReadsBack(servers[0], rest);
      ManyLines(servers[0]);
      ServersReadBack(servers[1..]);
      assert servers == [servers[0]] + servers[1..];
    }
  }

  lemma ManyLines(server: Server)
    ensures |ServerLines(server)| >= 15
  {
    LineCounts(server);
    hide EntryLines, CommandLines, ActivationLines, ReconnectLines;
  }

  lemma NotesAreOneLine()
    ensures OneLine(BEGIN) && OneLine(END) && OneLine(Note1()) && OneLine(Note2())
  {
    hide OneLine;
    MarkersAreOneLine();
    FirstNoteTexts();
    SecondNoteTexts();
    OneLineConcat("# Generated by FreeCode. ", "Edit mcp/servers.json ");
    OneLineConcat("# Generated by FreeCode. " + "Edit mcp/servers.json ", "to toggle entries.");
    OneLineConcat("# The MCP client bridge ", "is bundled; external ");
    OneLineConcat("# The MCP client bridge " + "is bundled; external ", "server executables are ");
    OneLineConcat("# The MCP client bridge " + "is bundled; external " + "server executables are ", "optional prerequisites.");
  }

  lemma MarkersAreOneLine()
    ensures OneLine(BEGIN) && OneLine(END)
  {
    MarkersDiffer();
  }

  lemma FirstNoteTexts()
    ensures OneLine("# Generated by FreeCode. ") && OneLine("Edit mcp/servers.json ") && OneLine("to toggle entries.")
  {
  }

  lemma SecondNoteTexts()
    ensures OneLine("# The MCP client bridge ") && OneLine("is bundled; external ")
    ensures OneLine("server executables are ") && OneLine("optional prerequisites.")
  {
  }

  /** Whatever the servers are, the rendered text reads as exactly those servers, each with its own id, name,
      command, arguments, directory, activation and switch: no field can end its line or its quotes. */
  lemma CatalogReadsBack(servers: seq<Server>)
    ensures ReadCatalog(Render(servers)) == Some(servers)
  {
    hide OneLine, Note1, Note2, ServerLines, LinesOf, ReadServers;
    var head := [BEGIN, Note1(), Note2()];
    var lines := head + AllServerLines(servers) + [END];
    NotesAreOneLine();
    CatalogIsOneLineEach(servers);
    AllOneLineConcat(head, AllServerLines(servers));
    AllOneLineConcat(head + AllServerLines(servers), [END]);
    LinesReadBack(lines);
    assert lines[3..] == AllServerLines(servers) + [END];
    ServersReadBack(servers);
  }

  /** So two catalogs that render alike are the same. */
  lemma RenderingIsInjective(a: seq<Server>, b: seq<Server>)
    requires Render(a) == Render(b)
    ensures a == b
  {
    hide Render, ReadCatalog;
    CatalogReadsBack(a);
    CatalogReadsBack(b);
  }
}
