/**
 Assembling a database from classified lines: which documents are accepted, which
 line an error names, and what ends up in the database.
 */
module DbcParse {
  import opened Common
  import opened DbcDecode

  datatype Header = Header(id: nat, extended: bool, name: string, dlc: nat)

  datatype ValueTable = ValueTable(id: nat, extended: bool, signal: string, table: map<int, string>)

  /** A line by its keyword, with what its own text says, or nothing when that text is malformed. */
  datatype Line =
    | MessageLine(header: Option<Header>)
    | SignalLine(signal: Option<Signal>)
    | ValueLine(table: Option<ValueTable>)
    | OtherLine

  datatype Problem = Malformed | DuplicateId | OrphanSignal | DuplicateName

  datatype DbcError = DbcError(problem: Problem, line: nat)

  type Key = (nat, bool)

  function KeyOf(m: Message): Key {
    (m.id, m.extended)
  }

  function Empty(h: Header): Message {
    Message(h.id, h.extended, h.name, h.dlc, [])
  }

  // ------------------------------------------------------- what is acceptable

  ghost predicate MessageFor(l: Line, k: Key) {
    l.MessageLine? && l.header.Some? && (l.header.value.id, l.header.value.extended) == k
  }

  ghost predicate SignalNamed(l: Line, name: string) {
    l.SignalLine? && l.signal.Some? && l.signal.value.name == name
  }

  /** Some line `j` before `i` says `p`, and no message line comes between them. */
  ghost predicate DeclaredInBlock(lines: seq<Line>, i: nat, name: string)
    requires i <= |lines|
  {
    exists j: nat :: j < i && SignalNamed(lines[j], name) && forall k | j < k < i :: !lines[k].MessageLine?
  }

  /** What is wrong with line `i`, given the lines before it. */
  ghost function ProblemAt(lines: seq<Line>, i: nat): Option<Problem>
    requires i < |lines|
  {
    match lines[i]
    case MessageLine(None) => Some(Malformed)
    case MessageLine(Some(h)) =>
      if exists j: nat :: j < i && MessageFor(lines[j], (h.id, h.extended)) then Some(DuplicateId) else None
    case SignalLine(s) =>
      if !exists j: nat :: j < i && lines[j].MessageLine? then Some(OrphanSignal)
      else if s.None? then Some(Malformed)
      else if DeclaredInBlock(lines, i, s.value.name) then Some(DuplicateName)
      else None
    case ValueLine(t) => if t.None? then Some(Malformed) else None
    case OtherLine => None
  }

  ghost predicate Acceptable(lines: seq<Line>) {
    forall i: nat | i < |lines| :: ProblemAt(lines, i) == None
  }

  /** The signals of the lines up to the next message line. */
  function Block(lines: seq<Line>): seq<Signal> {
    if lines == [] || lines[0].MessageLine? then []
    else (if lines[0].SignalLine? && lines[0].signal.Some? then [lines[0].signal.value] else []) + Block(lines[1..])
  }

  /** What the value lines say, in order. */
  function Tables(lines: seq<Line>): seq<ValueTable> {
    if lines == [] then []
    else
      var l := Last(lines);
      Tables(Init(lines)) + if l.ValueLine? && l.table.Some? then [l.table.value] else []
  }

  /** The table the last value line for this signal gives. */
  function LastTable(tables: seq<ValueTable>, k: Key, name: string, otherwise: map<int, string>): map<int, string> {
    if tables == [] then otherwise
    else if Concerns(Last(tables), k, name) then Last(tables).table
    else LastTable(Init(tables), k, name, otherwise)
  }

  predicate Concerns(t: ValueTable, k: Key, name: string) {
    (t.id, t.extended) == k && t.signal == name
  }

  // ------------------------------------------------------------------ parsing

  datatype Parsed = Parsed(messages: seq<Message>, tables: seq<ValueTable>)

  predicate HasKey(messages: seq<Message>, k: Key) {
    exists i | 0 <= i < |messages| :: KeyOf(messages[i]) == k
  }

  predicate HasName(signals: seq<Signal>, name: string) {
    exists i | 0 <= i < |signals| :: signals[i].name == name
  }

  function WithSignal(m: Message, s: Signal): Message {
    m.(signals := m.signals + [s])
  }

  /** One line. */
  function Take(p: Parsed, l: Line): Result<Parsed, Problem> {
    match l
    case MessageLine(None) => Err(Malformed)
    case MessageLine(Some(h)) =>
      if HasKey(p.messages, (h.id, h.extended)) then Err(DuplicateId) else Ok(p.(messages := p.messages + [Empty(h)]))
    case SignalLine(s) =>
      if p.messages == [] then Err(OrphanSignal)
      else if s.None? then Err(Malformed)
      else if HasName(Last(p.messages).signals, s.value.name) then Err(DuplicateName)
      else Ok(p.(messages := Init(p.messages) + [WithSignal(Last(p.messages), s.value)]))
    case ValueLine(t) => if t.None? then Err(Malformed) else Ok(p.(tables := p.tables + [t.value]))
    case OtherLine => Ok(p)
  }

  function ParseLines(lines: seq<Line>): Result<Parsed, DbcError> {
    if lines == [] then Ok(Parsed([], []))
    else
      match ParseLines(Init(lines))
      case Err(e) => Err(e)
      case Ok(p) =>
        match Take(p, Last(lines))
        case Err(problem) => Err(DbcError(problem, |lines|))
        case Ok(q) => Ok(q)
  }

  function ByKey(messages: seq<Message>): Database {
    if messages == [] then map[] else ByKey(Init(messages))[KeyOf(Last(messages)) := Last(messages)]
  }

  /** The first signal of that name gets the table. */
  function SetTable(signals: seq<Signal>, name: string, table: map<int, string>): seq<Signal> {
    if signals == [] then []
    else if signals[0].name == name then [signals[0].(valueTable := table)] + signals[1..]
    else [signals[0]] + SetTable(signals[1..], name, table)
  }

  function Attach(db: Database, t: ValueTable): Database {
    var k := (t.id, t.extended);
    if k in db then db[k := db[k].(signals := SetTable(db[k].signals, t.signal, t.table))] else db
  }

  function AttachAll(db: Database, tables: seq<ValueTable>): Database {
    if tables == [] then db else Attach(AttachAll(db, Init(tables)), Last(tables))
  }

  function Parse(lines: seq<Line>): Result<Database, DbcError> {
    match ParseLines(lines)
    case Err(e) => Err(e)
    case Ok(p) => Ok(AttachAll(ByKey(p.messages), p.tables))
  }

  method ParseDatabase(lines: seq<Line>) returns (r: Result<Database, DbcError>)
    ensures r == Parse(lines)
  {
    hide HasKey, HasName, Attach;
    var messages: seq<Message> := [];
    var tables: seq<ValueTable> := [];
    for i := 0 to |lines|
      invariant ParseLines(lines[..i]) == Ok(Parsed(messages, tables))
    {
      assert Init(lines[..i + 1]) == lines[..i];
      ErrorStays(lines, i + 1);
      match lines[i]
      case MessageLine(None) => return Err(DbcError(Malformed, i + 1));
      case MessageLine(Some(h)) =>
        if HasKey(messages, (h.id, h.extended)) {
          return Err(DbcError(DuplicateId, i + 1));
        }
        messages := messages + [Empty(h)];
      case SignalLine(s) =>
        if messages == [] {
          return Err(DbcError(OrphanSignal, i + 1));
        }
        if s.None? {
          return Err(DbcError(Malformed, i + 1));
        }
        if HasName(Last(messages).signals, s.value.name) {
          return Err(DbcError(DuplicateName, i + 1));
        }
        messages := Init(messages) + [WithSignal(Last(messages), s.value)];
      case ValueLine(t) =>
        if t.None? {
          return Err(DbcError(Malformed, i + 1));
        }
        tables := tables + [t.value];
      case OtherLine =>
    }
    assert lines[..|lines|] == lines;
    var db: Database := map[];
    for i := 0 to |messages|
      invariant db == ByKey(messages[..i])
    {
      assert Init(messages[..i + 1]) == messages[..i];
      db := db[KeyOf(messages[i]) := messages[i]];
    }
    assert messages[..|messages|] == messages;
    ghost var unattached := db;
    for i := 0 to |tables|
      invariant db == AttachAll(unattached, tables[..i])
    {
      assert Init(tables[..i + 1]) == tables[..i];
      db := Attach(db, tables[i]);
    }
    assert tables[..|tables|] == tables;
    return Ok(db);
  }

  /** An error found by some line stands, whatever follows. */
  lemma {:induction false} ErrorStays(lines: seq<Line>, i: nat)
    requires i <= |lines|
    ensures ParseLines(lines[..i]).Err? ==> ParseLines(lines) == ParseLines(lines[..i])
  {
    if i == |lines| {
      assert lines[..i] == lines;
    } else {
      ErrorStays(Init(lines), i);
      assert Init(lines)[..i] == lines[..i];
    }
  }

  // --------------------------------------------------- the messages, as blocks

  ghost predicate HasMessage(lines: seq<Line>) {
    exists j: nat :: j < |lines| && lines[j].MessageLine?
  }

  ghost predicate HeadersPresent(lines: seq<Line>) {
    forall j: nat | j < |lines| && lines[j].MessageLine? :: lines[j].header.Some?
  }

  /** The places of the message lines. */
  function Heads(lines: seq<Line>): (hs: seq<nat>)
    ensures forall x | 0 <= x < |hs| :: hs[x] < |lines| && lines[hs[x]].MessageLine?
  {
    if lines == [] then []
    else Heads(Init(lines)) + if Last(lines).MessageLine? then [|lines| - 1 as nat] else []
  }

  lemma {:induction false} HeadsAreAll(lines: seq<Line>)
    ensures forall j: nat | j < |lines| && lines[j].MessageLine? :: j in Heads(lines)
    ensures forall x, y | 0 <= x < y < |Heads(lines)| :: Heads(lines)[x] < Heads(lines)[y]
  {
    if lines != [] {
      HeadsAreAll(Init(lines));
    }
  }

  /** The message declared at line `i`: its header, and the signals up to the next message line. */
  function Declared(lines: seq<Line>, i: nat): Message
    requires i < |lines| && lines[i].MessageLine? && lines[i].header.Some?
  {
    Empty(lines[i].header.value).(signals := Block(lines[i + 1..]))
  }

  ghost predicate AreDeclared(messages: seq<Message>, lines: seq<Line>) {
    && HeadersPresent(lines) && |messages| == |Heads(lines)|
    && forall x | 0 <= x < |messages| :: messages[x] == Declared(lines, Heads(lines)[x])
  }

  lemma {:induction false} BlockAppend(rest: seq<Line>, l: Line)
    ensures Block(rest + [l]) == Block(rest) + if HasMessage(rest) then [] else Block([l])
  {
    if rest == [] {
      assert rest + [l] == [l];
    } else if rest[0].MessageLine? {
      assert (rest + [l])[0] == rest[0];
    } else {
      assert (rest + [l])[1..] == rest[1..] + [l];
      BlockAppend(rest[1..], l);
      if HasMessage(rest) {
        var j: nat :| j < |rest| && rest[j].MessageLine?;
        assert rest[1..][j - 1].MessageLine?;
      }
      if HasMessage(rest[1..]) {
        var j: nat :| j < |rest| - 1 && rest[1..][j].MessageLine?;
        assert rest[j + 1].MessageLine?;
      }
    }
  }

  lemma {:induction false} BlockNames(rest: seq<Line>, name: string)
    requires !HasMessage(rest)
    ensures HasName(Block(rest), name) <==> exists j: nat :: j < |rest| && SignalNamed(rest[j], name)
  {
    if rest != [] {
      assert !HasMessage(rest[1..]) by {
        assert forall j: nat | j < |rest| - 1 :: rest[1..][j] == rest[j + 1];
      }
      BlockNames(rest[1..], name);
      var first := if rest[0].SignalLine? && rest[0].signal.Some? then [rest[0].signal.value] else [];
      assert !rest[0].MessageLine?;
      NamesOfTwo(first, Block(rest[1..]), name);
      if j: nat :| j < |rest| && SignalNamed(rest[j], name) {
        if j > 0 {
          assert SignalNamed(rest[1..][j - 1], name);
        }
      }
      if j: nat :| j < |rest| - 1 && SignalNamed(rest[1..][j], name) {
        assert SignalNamed(rest[j + 1], name);
      }
    }
  }

  lemma NamesOfTwo(a: seq<Signal>, b: seq<Signal>, name: string)
    ensures HasName(a + b, name) <==> HasName(a, name) || HasName(b, name)
  {
    if i :| 0 <= i < |a| && a[i].name == name {
      assert (a + b)[i].name == name;
    }
    if i :| 0 <= i < |b| && b[i].name == name {
      assert (a + b)[|a| + i].name == name;
    }
  }
}
