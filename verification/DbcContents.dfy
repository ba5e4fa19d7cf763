/** Which documents the database parser accepts, and what an accepted document's database holds. */
module DbcContents {
  import opened Common
  import opened DbcDecode
  import opened DbcParse

  /** Messages have distinct keys, and each has signals with distinct names. */
  ghost predicate Unambiguous(messages: seq<Message>) {
    && (forall x, y | 0 <= x < y < |messages| :: KeyOf(messages[x]) != KeyOf(messages[y]))
    && forall x | 0 <= x < |messages| :: UniqueNames(messages[x].signals)
  }

  ghost predicate UniqueNames(signals: seq<Signal>) {
    forall i, j | 0 <= i < j < |signals| :: signals[i].name != signals[j].name
  }

  // ----------------------------------------------------------------- one line

  lemma SliceAppend(before: seq<Line>, l: Line, i: nat)
    requires i < |before|
    ensures (before + [l])[i + 1..] == before[i + 1..] + [l]
  {
  }

  lemma HeadsAppend(before: seq<Line>, l: Line)
    ensures Heads(before + [l]) == Heads(before) + if l.MessageLine? then [|before| as nat] else []
  {
    assert Init(before + [l]) == before;
  }

  /** After the head of the last message there is no message line; after any other there is. */
  lemma AfterHead(lines: seq<Line>, x: nat)
    requires x < |Heads(lines)|
    ensures HasMessage(lines[Heads(lines)[x] + 1..]) <==> x + 1 < |Heads(lines)|
  {
    hide Heads;
    HeadsAreAll(lines);
    var hs := Heads(lines);
    var h, rest := hs[x], lines[hs[x] + 1..];
    if x + 1 < |hs| {
      assert rest[hs[x + 1] - h - 1] == lines[hs[x + 1]];
    }
    if HasMessage(rest) {
      var j: nat :| j < |rest| && rest[j].MessageLine?;
      var later: nat := h + 1 + j;
      assert lines[later].MessageLine?;
      var y :| 0 <= y < |hs| && hs[y] == later;
      assert y > x;
    }
  }

  lemma DeclaredAppend(before: seq<Line>, l: Line, x: nat)
    requires HeadersPresent(before) && x < |Heads(before)|
    ensures Heads(before)[x] < |before + [l]| && (before + [l])[Heads(before)[x]] == before[Heads(before)[x]]
    ensures var h := Heads(before)[x];
            Declared(before + [l], h) ==
            if x + 1 == |Heads(before)| && l.SignalLine? && l.signal.Some?
            then WithSignal(Declared(before, h), l.signal.value)
            else Declared(before, h)
  {
    var h := Heads(before)[x];
    SliceAppend(before, l, h);
    BlockAppend(before[h + 1..], l);
    AfterHead(before, x);
    assert Block([l]) == (if l.SignalLine? && l.signal.Some? then [l.signal.value] else []) by {
      assert [l][1..] == [];
    }
    assert Block(before[h + 1..]) + [] == Block(before[h + 1..]);
  }

  lemma NoSignals()
    ensures Block([]) == []
  {
  }

  lemma NothingDeclared()
    ensures AreDeclared([], []) && Unambiguous([])
  {
  }

  lemma TakeKeepsDeclared(before: seq<Line>, l: Line, p: Parsed, q: Parsed)
    requires AreDeclared(p.messages, before) && Take(p, l) == Ok(q)
    ensures AreDeclared(q.messages, before + [l])
  {
    hide Block, HasKey, HasName, Heads;
    HeadsAppend(before, l);
    var lines, hs := before + [l], Heads(before);
    forall x | 0 <= x < |hs|
      ensures Declared(lines, hs[x]) ==
              if x + 1 == |hs| && l.SignalLine? then WithSignal(p.messages[x], l.signal.value) else p.messages[x]
    {
      DeclaredAppend(before, l, x);
    }
    if l.MessageLine? {
      assert lines[|before| + 1..] == [];
      NoSignals();
    }
  }

  lemma TakeKeepsUnambiguous(p: Parsed, l: Line, q: Parsed)
    requires Unambiguous(p.messages) && Take(p, l) == Ok(q)
    ensures Unambiguous(q.messages)
  {
    if l.SignalLine? {
      var m := Last(p.messages);
      assert UniqueNames(m.signals + [l.signal.value]);
      assert forall x | 0 <= x < |p.messages| :: KeyOf(q.messages[x]) == KeyOf(p.messages[x]);
    }
  }

  lemma KeysDeclared(messages: seq<Message>, lines: seq<Line>, k: Key)
    requires AreDeclared(messages, lines)
    ensures HasKey(messages, k) <==> exists j: nat :: j < |lines| && MessageFor(lines[j], k)
  {
    HeadsAreAll(lines);
    if j: nat :| j < |lines| && MessageFor(lines[j], k) {
      var x :| 0 <= x < |Heads(lines)| && Heads(lines)[x] == j;
      assert KeyOf(messages[x]) == k;
    }
    if HasKey(messages, k) {
      var x :| 0 <= x < |messages| && KeyOf(messages[x]) == k;
      assert MessageFor(lines[Heads(lines)[x]], k);
    }
  }

  lemma NamesDeclared(messages: seq<Message>, lines: seq<Line>, name: string)
    requires AreDeclared(messages, lines) && messages != []
    ensures HasName(Last(messages).signals, name) <==> DeclaredInBlock(lines, |lines|, name)
  {
    HeadsAreAll(lines);
    var h := Last(Heads(lines));
    AfterHead(lines, |messages| - 1);
    var rest := lines[h + 1..];
    BlockNames(rest, name);
  }

  /** A line is refused while parsing for exactly the reason the document gives. */
  lemma TakeFindsProblem(before: seq<Line>, l: Line, p: Parsed)
    requires AreDeclared(p.messages, before)
    ensures ProblemAt(before + [l], |before|) == match Take(p, l) case Err(problem) => Some(problem) case Ok(_) => None
  {
    hide HasKey, HasName, AreDeclared;
    var lines := before + [l];
    assert forall j: nat | j < |before| :: lines[j] == before[j];
    match l
    case MessageLine(Some(h)) => KeysDeclared(p.messages, before, (h.id, h.extended));
    case SignalLine(s) =>
      MessagesSeen(p.messages, before);
      if p.messages != [] && s.Some? {
        NamesDeclared(p.messages, before, s.value.name);
        assert DeclaredInBlock(lines, |before|, s.value.name) <==> DeclaredInBlock(before, |before|, s.value.name);
      }
    case _ =>
  }

  lemma MessagesSeen(messages: seq<Message>, lines: seq<Line>)
    requires AreDeclared(messages, lines)
    ensures messages != [] <==> exists j: nat :: j < |lines| && lines[j].MessageLine?
  {
    HeadsAreAll(lines);
    if messages != [] {
      assert lines[Heads(lines)[0]].MessageLine?;
    }
  }

  // ------------------------------------------------------------ whole documents

  lemma {:induction false} ParseInvariant(lines: seq<Line>)
    ensures var r := ParseLines(lines);
            r.Ok? ==>
              && AreDeclared(r.value.messages, lines) && Unambiguous(r.value.messages)
              && r.value.tables == Tables(lines)
  {
    hide AreDeclared, Unambiguous;
    if lines == [] {
      NothingDeclared();
    } else {
      ParseInvariant(Init(lines));
      var before := ParseLines(Init(lines));
      if before.Ok? {
        assert lines == Init(lines) + [Last(lines)];
        var after := Take(before.value, Last(lines));
        if after.Ok? {
          TakeKeepsDeclared(Init(lines), Last(lines), before.value, after.value);
          TakeKeepsUnambiguous(before.value, Last(lines), after.value);
        }
      }
    }
  }

  lemma ProblemInPrefix(lines: seq<Line>, n: nat, i: nat)
    requires i < n <= |lines|
    ensures ProblemAt(lines[..n], i) == ProblemAt(lines, i)
  {
    assert forall j: nat | j < n :: lines[..n][j] == lines[j];
    if lines[i].SignalLine? && lines[i].signal.Some? {
      assert DeclaredInBlock(lines[..n], i, lines[i].signal.value.name) <==>
             DeclaredInBlock(lines, i, lines[i].signal.value.name);
    }
  }

  /** The first line with a problem, and its problem. */
  ghost predicate FirstProblem(lines: seq<Line>, e: DbcError) {
    && 1 <= e.line <= |lines| && ProblemAt(lines, e.line - 1) == Some(e.problem)
    && forall i: nat | i < e.line - 1 :: ProblemAt(lines, i) == None
  }

  /**
   A document is accepted if and only if every line is well formed, message
   identifiers are distinct, every signal follows a message, and signal names are
   distinct within a message; otherwise the error names the first line at fault.
   */
  lemma {:induction false} AcceptedIff(lines: seq<Line>)
    ensures Parse(lines).Ok? <==> Acceptable(lines)
    ensures Parse(lines).Err? ==> FirstProblem(lines, Parse(lines).error)
  {
    hide ProblemAt, ByKey, AttachAll, Take;
    if lines != [] {
      var before, l := Init(lines), Last(lines);
      AcceptedIff(before);
      forall i: nat | i < |before| ensures ProblemAt(before, i) == ProblemAt(lines, i) {
        ProblemInPrefix(lines, |before|, i);
      }
      var r := ParseLines(before);
      if r.Ok? {
        ParseInvariant(before);
        TakeFindsProblem(before, l, r.value);
        assert before + [l] == lines;
      }
    }
  }

  // ------------------------------------------------------------------ contents

  lemma {:induction false} ByKeyContents(messages: seq<Message>)
    requires Unambiguous(messages)
    ensures forall k :: k in ByKey(messages) <==> HasKey(messages, k)
    ensures forall x | 0 <= x < |messages| ::
              KeyOf(messages[x]) in ByKey(messages) && ByKey(messages)[KeyOf(messages[x])] == messages[x]
  {
    if messages != [] {
      var before := Init(messages);
      ByKeyContents(before);
      forall k ensures HasKey(messages, k) <==> HasKey(before, k) || k == KeyOf(Last(messages)) {
        if HasKey(before, k) {
          var x :| 0 <= x < |before| && KeyOf(before[x]) == k;
          assert KeyOf(messages[x]) == k;
        }
      }
      forall x | 0 <= x < |before|
        ensures KeyOf(messages[x]) in ByKey(messages) && ByKey(messages)[KeyOf(messages[x])] == messages[x]
      {
        assert before[x] == messages[x];
      }
    }
  }

  /** Every signal with the table its last value line gives, or the one it had. */
  function Labelled(signals: seq<Signal>, k: Key, tables: seq<ValueTable>): (r: seq<Signal>)
    ensures |r| == |signals|
  {
    seq(|signals|, j requires 0 <= j < |signals| =>
      signals[j].(valueTable := LastTable(tables, k, signals[j].name, signals[j].valueTable)))
  }

  lemma {:induction false} SetTableAt(signals: seq<Signal>, name: string, table: map<int, string>)
    requires UniqueNames(signals)
    ensures |SetTable(signals, name, table)| == |signals|
    ensures forall j | 0 <= j < |signals| ::
              SetTable(signals, name, table)[j] == if signals[j].name == name then signals[j].(valueTable := table)
                else signals[j]
  {
    if signals != [] && signals[0].name != name {
      SetTableAt(signals[1..], name, table);
    }
  }

  lemma {:induction false} AttachAllContents(db: Database, tables: seq<ValueTable>, k: Key)
    requires k in db ==> UniqueNames(db[k].signals)
    ensures k in AttachAll(db, tables) <==> k in db
    ensures k in db ==> AttachAll(db, tables)[k] == db[k].(signals := Labelled(db[k].signals, k, tables))
  {
    if tables == [] {
      assert k in db ==> Labelled(db[k].signals, k, tables) == db[k].signals;
    } else {
      AttachAllContents(db, Init(tables), k);
      if k in db {
        var t, before := Last(tables), Labelled(db[k].signals, k, Init(tables));
        assert UniqueNames(before);
        SetTableAt(before, t.signal, t.table);
        assert Labelled(db[k].signals, k, tables) ==
               if (t.id, t.extended) == k then SetTable(before, t.signal, t.table) else before;
      }
    }
  }

  /**
   The database of an accepted document has one message for each message line: its
   header, the signals of the lines up to the next message line in order, and for
   each signal the table of the last value line that names it, before or after.
   */
  lemma DatabaseHolds(lines: seq<Line>, i: nat)
    requires Acceptable(lines) && i < |lines| && lines[i].MessageLine?
    ensures Parse(lines).Ok? && lines[i].header.Some?
    ensures var (db, m) := (Parse(lines).value, Declared(lines, i));
            KeyOf(m) in db && db[KeyOf(m)] == m.(signals := Labelled(m.signals, KeyOf(m), Tables(lines)))
  {
    hide Declared, Block, Labelled, AttachAll, ByKey;
    AcceptedIff(lines);
    ParseInvariant(lines);
    assert ProblemAt(lines, i) == None;
    var p := ParseLines(lines).value;
    HeadsAreAll(lines);
    var x :| 0 <= x < |Heads(lines)| && Heads(lines)[x] == i;
    ByKeyContents(p.messages);
    AttachAllContents(ByKey(p.messages), p.tables, KeyOf(p.messages[x]));
  }

  /** It has no other message. */
  lemma DatabaseHoldsOnly(lines: seq<Line>, k: Key)
    requires Acceptable(lines)
    ensures Parse(lines).Ok? && (k in Parse(lines).value <==> exists j: nat :: j < |lines| && MessageFor(lines[j], k))
  {
    hide AttachAll, ByKey;
    AcceptedIff(lines);
    ParseInvariant(lines);
    var p := ParseLines(lines).value;
    KeysDeclared(p.messages, lines, k);
    ByKeyContents(p.messages);
    if k in ByKey(p.messages) {
      var x :| 0 <= x < |p.messages| && KeyOf(p.messages[x]) == k;
    }
    AttachAllContents(ByKey(p.messages), p.tables, k);
  }
}
