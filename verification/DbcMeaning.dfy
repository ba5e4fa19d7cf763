/** What the database of an accepted document says, line by line of the document. */
module DbcMeaning {
  import opened Common
  import opened DbcDecode
  import opened DbcParse
  import opened DbcContents

  // ------------------------------------------------------------------- signals

  /** Line `j` declares a signal, and no message line stands between it and line `n`. */
  predicate InBlock(lines: seq<Line>, n: nat, j: nat) {
    && n <= j < |lines| && lines[j].SignalLine? && lines[j].signal.Some?
    && forall k | n <= k < j :: !lines[k].MessageLine?
  }

  /** The signals are those declared at `places`, which are, in order, the signal lines of the block from line `n` on. */
  predicate Collects(lines: seq<Line>, n: nat, places: seq<nat>, signals: seq<Signal>) {
    && |places| == |signals|
    && (forall x | 0 <= x < |places| ::
          InBlock(lines, n, places[x]) && lines[places[x]].signal == Some(signals[x]))
    && (forall x, y | 0 <= x < y < |places| :: places[x] < places[y])
    && (forall j: nat | j < |lines| && InBlock(lines, n, j) :: j in places)
  }

  lemma {:induction false} BlockCollects(lines: seq<Line>, n: nat) returns (places: seq<nat>)
    requires n <= |lines|
    ensures Collects(lines, n, places, Block(lines[n..]))
    decreases |lines| - n
  {
    if n == |lines| || lines[n].MessageLine? {
      places := [];
      assert forall j: nat | j < |lines| :: !InBlock(lines, n, j);
    } else {
      var rest := BlockCollects(lines, n + 1);
      assert lines[n..][1..] == lines[n + 1..] && lines[n..][0] == lines[n];
      if InBlock(lines, n, n) {
        CollectFirst(lines, n, rest, Block(lines[n + 1..]));
        places := [n] + rest;
      } else {
        CollectNone(lines, n, rest, Block(lines[n + 1..]));
        places := rest;
        assert Block(lines[n..]) == Block(lines[n + 1..]);
      }
    }
  }

  lemma InBlockStep(lines: seq<Line>, n: nat, j: nat)
    requires n < |lines| && !lines[n].MessageLine?
    ensures InBlock(lines, n, j) <==> InBlock(lines, n + 1, j) || (j == n && InBlock(lines, n, n))
    ensures InBlock(lines, n, j) ==> n <= j < |lines| && lines[j].SignalLine?
    ensures InBlock(lines, n + 1, j) ==> n < j
  {
  }

  lemma CollectNone(lines: seq<Line>, n: nat, rest: seq<nat>, signals: seq<Signal>)
    requires n < |lines| && !lines[n].MessageLine? && !InBlock(lines, n, n) && Collects(lines, n + 1, rest, signals)
    ensures Collects(lines, n, rest, signals)
  {
    forall j: nat ensures InBlock(lines, n, j) <==> InBlock(lines, n + 1, j) {
      InBlockStep(lines, n, j);
    }
    hide InBlock;
  }

  lemma CollectFirst(lines: seq<Line>, n: nat, rest: seq<nat>, signals: seq<Signal>)
    requires n < |lines| && InBlock(lines, n, n) && Collects(lines, n + 1, rest, signals)
    ensures Collects(lines, n, [n] + rest, [lines[n].signal.value] + signals)
  {
    var places, all := [n] + rest, [lines[n].signal.value] + signals;
    forall x | 0 <= x < |places| ensures n <= places[x] && (x > 0 ==> n < places[x])
      ensures InBlock(lines, n, places[x]) && lines[places[x]].signal == Some(all[x])
    {
      if x > 0 {
        assert places[x] == rest[x - 1] && all[x] == signals[x - 1];
        InBlockStep(lines, n, rest[x - 1]);
      }
    }
    forall x, y | 0 <= x < y < |places| ensures places[x] < places[y] {
      assert places[y] == rest[y - 1] && (x > 0 ==> places[x] == rest[x - 1]);
    }
    forall j: nat | j < |lines| && InBlock(lines, n, j) ensures j in places {
      InBlockStep(lines, n, j);
    }
  }

  // -------------------------------------------------------------------- tables

  /** The line gives a table to this signal of this message. */
  predicate IsAbout(l: Line, id: nat, extended: bool, name: string) {
    && l.ValueLine? && l.table.Some?
    && l.table.value.id == id && l.table.value.extended == extended && l.table.value.signal == name
  }

  /** `table` is what the last such line of the document gives, or `otherwise` when there is none. */
  ghost predicate TableFor(lines: seq<Line>, id: nat, extended: bool, name: string, otherwise: map<int, string>,
                           table: map<int, string>)
  {
    if exists v: nat :: v < |lines| && IsAbout(lines[v], id, extended, name) then
      exists v: nat :: v < |lines| && IsAbout(lines[v], id, extended, name) && table == lines[v].table.value.table
                       && forall w | v < w < |lines| :: !IsAbout(lines[w], id, extended, name)
    else table == otherwise
  }

  lemma {:induction false} LastTableIs(lines: seq<Line>, id: nat, extended: bool, name: string,
                                       otherwise: map<int, string>)
    ensures TableFor(lines, id, extended, name, otherwise,
                     LastTable(Tables(lines), (id, extended), name, otherwise))
  {
    hide IsAbout;
    if lines != [] {
      var before, l := Init(lines), Last(lines);
      LastTableIs(before, id, extended, name, otherwise);
      LastTableStep(before, l, id, extended, name, otherwise);
      assert lines == before + [l];
      if IsAbout(l, id, extended, name) {
        assert lines[|before|] == l;
      } else {
        NoLaterTable(before, l, id, extended, name, otherwise,
                     LastTable(Tables(before), (id, extended), name, otherwise));
      }
    }
  }

  lemma LastTableStep(before: seq<Line>, l: Line, id: nat, extended: bool, name: string, otherwise: map<int, string>)
    ensures LastTable(Tables(before + [l]), (id, extended), name, otherwise) ==
            if IsAbout(l, id, extended, name) then l.table.value.table
            else LastTable(Tables(before), (id, extended), name, otherwise)
  {
    var tables := Tables(before);
    assert Init(before + [l]) == before;
    if l.ValueLine? && l.table.Some? {
      assert Init(tables + [l.table.value]) == tables;
    } else {
      assert Tables(before + [l]) == tables;
    }
  }

  lemma NoLaterTable(before: seq<Line>, l: Line, id: nat, extended: bool, name: string, otherwise: map<int, string>,
                     table: map<int, string>)
    requires !IsAbout(l, id, extended, name) && TableFor(before, id, extended, name, otherwise, table)
    ensures TableFor(before + [l], id, extended, name, otherwise, table)
  {
    var lines := before + [l];
    assert forall v: nat | v < |before| :: lines[v] == before[v];
    assert lines[|before|] == l;
    if u: nat :| u < |before| && IsAbout(before[u], id, extended, name) {
      var v: nat :| v < |before| && IsAbout(before[v], id, extended, name) && table == before[v].table.value.table
                    && forall w | v < w < |before| :: !IsAbout(before[w], id, extended, name);
      assert IsAbout(lines[v], id, extended, name);
      assert forall w | v < w < |lines| :: !IsAbout(lines[w], id, extended, name);
    } else {
      assert forall v: nat | v < |lines| :: !IsAbout(lines[v], id, extended, name);
    }
  }

  // ------------------------------------------------------------------ messages

  /**
   The message of line `i` has that line's fields, and one signal for each signal line of its block, in order,
   as declared there but for its table.
   */
  ghost predicate Described(lines: seq<Line>, i: nat, h: Header, places: seq<nat>, m: Message) {
    && m.id == h.id && m.extended == h.extended && m.name == h.name && m.dlc == h.dlc
    && |m.signals| == |places|
    && (exists declared :: Collects(lines, i + 1, places, declared) && AsDeclared(lines, h, declared, m.signals))
  }

  ghost predicate AsDeclared(lines: seq<Line>, h: Header, declared: seq<Signal>, signals: seq<Signal>) {
    && |signals| == |declared|
    && forall x | 0 <= x < |signals| ::
         var (s, t) := (declared[x], signals[x]);
         && t == s.(valueTable := t.valueTable)
         && TableFor(lines, h.id, h.extended, s.name, s.valueTable, t.valueTable)
  }

  /** Every message line of an accepted document is in the database, as its lines describe it. */
  lemma MessageMeans(lines: seq<Line>, i: nat) returns (places: seq<nat>)
    requires Acceptable(lines) && i < |lines| && lines[i].MessageLine?
    ensures Parse(lines).Ok? && lines[i].header.Some?
    ensures var (db, h) := (Parse(lines).value, lines[i].header.value);
            (h.id, h.extended) in db && Described(lines, i, h, places, db[(h.id, h.extended)])
  {
    hide Parse, Acceptable, Collects, Block, LastTable, TableFor, Tables;
    DatabaseHolds(lines, i);
    var h := lines[i].header.value;
    places := BlockCollects(lines, i + 1);
    var declared := Block(lines[i + 1..]);
    CollectsLength(lines, i + 1, places, declared);
    forall x | 0 <= x < |declared|
      ensures TableFor(lines, h.id, h.extended, declared[x].name, declared[x].valueTable,
                       LastTable(Tables(lines), (h.id, h.extended), declared[x].name, declared[x].valueTable))
    {
      LastTableIs(lines, h.id, h.extended, declared[x].name, declared[x].valueTable);
    }
    var m := Parse(lines).value[(h.id, h.extended)];
    assert m.signals == Labelled(declared, (h.id, h.extended), Tables(lines));
    assert AsDeclared(lines, h, declared, m.signals);
  }

  lemma CollectsLength(lines: seq<Line>, n: nat, places: seq<nat>, signals: seq<Signal>)
    requires Collects(lines, n, places, signals)
    ensures |places| == |signals|
  {
  }
}
