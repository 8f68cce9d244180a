// The network log listener: many connections, one record stream.

module NetLog {
  import opened Words

  const NL_LINE_MAX := 4200
  const NL_MAX_CONN := 64
  const TMP_SIZE := 2048

  /** What a full buffer holds: the last place is kept for the terminating NUL. */
  const FULL := NL_LINE_MAX - 1

  // ---- One connection's bytes, framed (the reference) ---------------------------------------------------

  /** Where `ch` first stands, or the length. */
  function Index(s: string, ch: char): (k: nat)
    ensures k <= |s| && (k < |s| ==> s[k] == ch) && ch !in s[..k]
  {
    if s == "" || s[0] == ch then 0
    else
      assert s[..1 + Index(s[1..], ch)] == [s[0]] + s[1..][..Index(s[1..], ch)];
      1 + Index(s[1..], ch)
  }

  /** A terminated line, cut every 4199 bytes. */
  function Pieces(line: string): seq<string> {
    if |line| <= FULL then [line] else [line[..FULL]] + Pieces(line[FULL..])
  }

  /** The pieces of an unterminated line that the next byte has already forced out. */
  function Forced(tail: string): seq<string> {
    if |tail| <= FULL then [] else [tail[..FULL]] + Forced(tail[FULL..])
  }

  function Last(tail: string): string {
    if |tail| <= FULL then tail else Last(tail[FULL..])
  }

  /** The lines a byte stream stands for, whatever reads it came in. */
  function Frames(s: string): seq<string>
    decreases |s|
  {
    var k := Index(s, '\n');
    if k == |s| then Forced(s) else Pieces(s[..k]) + Frames(s[k + 1..])
  }

  /** The bytes of a stream that are not in any line yet. */
  function Remainder(s: string): string
    decreases |s|
  {
    var k := Index(s, '\n');
    if k == |s| then Last(s) else Remainder(s[k + 1..])
  }

  function Spelled(lines: seq<string>): string {
    if lines == [] then "" else lines[0] + Spelled(lines[1..])
  }

  function WithoutNewlines(s: string): string {
    if s == "" then "" else (if s[0] == '\n' then "" else [s[0]]) + WithoutNewlines(s[1..])
  }

  // ---- What the program computes ------------------------------------------------------------------------

  datatype Scanned = Scanned(lines: seq<string>, rest: string)

  /** `feed`: the lines it hands on, and what the buffer holds afterwards. */
  function Scan(text: string, data: string): (r: Scanned)
    requires |text| <= FULL
    ensures |r.rest| <= FULL
    decreases |data|
  {
    if data == "" then Scanned([], text)
    else if data[0] == '\n' then var r := Scan("", data[1..]); Scanned([text] + r.lines, r.rest)
    else if |text| < FULL then Scan(text + [data[0]], data[1..])
    else var r := Scan([data[0]], data[1..]); Scanned([text] + r.lines, r.rest)
  }

  /** What one line says: the text that `strtoul` is given, and the message. */
  datatype Entry = Entry(level: string, msg: string)

  function CString(s: string): string {
    s[..Index(s, '\0')]
  }

  /** The line up to its first NUL, split at its first space. */
  function Parse(line: string): Entry {
    var s := CString(line);
    var k := Index(s, ' ');
    if k < |s| then Entry(s[..k], s[k + 1..]) else Entry(s, "")
  }

  /** A line of a level, a space and a message says just that. */
  lemma ParseSplits(level: string, msg: string)
    requires ' ' !in level && '\0' !in level && '\0' !in msg
    ensures Parse(level + " " + msg) == Entry(level, msg)
  {
    var line := level + " " + msg;
    IndexNone(line, '\0');
    assert line[..|line|] == line;
    assert line == level + (" " + msg);
    IndexPrefix(level, " " + msg, ' ');
    assert line[..|level|] == level && line[|level| + 1..] == msg;
  }

  /** A line without a space is all level. */
  lemma ParseBare(level: string)
    requires ' ' !in level && '\0' !in level
    ensures Parse(level) == Entry(level, "")
  {
    IndexNone(level, '\0');
    IndexNone(level, ' ');
    assert level[..|level|] == level;
  }

  /** What follows a NUL does not matter. */
  lemma ParseStopsAtNul(line: string, rest: string)
    ensures Parse(line + "\0" + rest) == Parse(line)
  {
    CStringStops(line, rest);
  }

  lemma CStringStops(line: string, rest: string)
    ensures CString(line + "\0" + rest) == CString(line)
  {
    var k := Index(line, '\0');
    var all := line + "\0" + rest;
    assert all == line[..k] + all[k..];
    IndexPrefix(line[..k], all[k..], '\0');
    assert all[..k] == line[..k];
  }

  function ParseAll(lines: seq<string>): seq<Entry> {
    seq(|lines|, i requires 0 <= i < |lines| => Parse(lines[i]))
  }

  /** A record of the store. `from` names the connection, for the statements below only. */
  datatype Record = Record(seqNo: U32, from: nat, entry: Entry)

  datatype Store = Store(log: seq<Record>, seqNo: U32)

  function Emit(st: Store, id: nat, line: string): Store {
    Store(st.log + [Record(st.seqNo, id, Parse(line))], Low32(st.seqNo + 1))
  }

  function EmitAll(st: Store, id: nat, lines: seq<string>): Store
    decreases |lines|
  {
    if lines == [] then st else EmitAll(Emit(st, id, lines[0]), id, lines[1..])
  }

  /** An open connection. `id` counts accepted connections; a descriptor number can come back, an id cannot. */
  datatype Live = Live(id: nat, fd: int, text: string)

  /** What `poll` and `read` report for one connection: `data` is empty when `read` returns 0 or fails. */
  datatype Event = Event(readable: bool, data: string, gone: bool)

  predicate Fits(conns: seq<Live>) {
    forall c <- conns :: |c.text| <= FULL
  }

  predicate Drops(e: Event) {
    (e.readable && e.data == "") || e.gone
  }

  function Read(e: Event): string {
    if e.readable then e.data else ""
  }

  datatype Served = Served(kept: seq<Live>, store: Store)

  /** The service loop: every connection in turn, the ones that closed left out. */
  function Serve(conns: seq<Live>, event: nat -> Event, st: Store): (r: Served)
    requires Fits(conns)
    ensures Fits(r.kept) && |r.kept| <= |conns|
    decreases |conns|
  {
    if conns == [] then Served([], st)
    else
      var c, e := conns[0], event(conns[0].id);
      var s := Scan(c.text, Read(e));
      var r := Serve(conns[1..], event, EmitAll(st, c.id, s.lines));
      Served((if Drops(e) then [] else [c.(text := s.rest)]) + r.kept, r.store)
  }

  datatype State = State(conns: seq<Live>, store: Store, accepted: nat)

  /** One turn of the listener: a descriptor that `accept` returned, if any, and each connection's event. */
  datatype Round = Round(newcomer: Option<int>, event: nat -> Event)

  /** At capacity the newcomer is closed at once. */
  function Admit(s: State, newcomer: Option<int>): State {
    if newcomer.Some? && |s.conns| < NL_MAX_CONN
    then s.(conns := s.conns + [Live(s.accepted, newcomer.value, "")], accepted := s.accepted + 1)
    else s
  }

  predicate Sound(s: State) {
    Fits(s.conns) && |s.conns| <= NL_MAX_CONN
  }

  function Turn(s: State, round: Round): (r: State)
    requires Sound(s)
    ensures Sound(r)
  {
    var a := Admit(s, round.newcomer);
    var served := Serve(a.conns, round.event, a.store);
    State(served.kept, served.store, a.accepted)
  }

  const START := State([], Store([], 0), 0)

  function Run(rounds: seq<Round>): (s: State)
    ensures Sound(s)
  {
    if rounds == [] then START else Turn(Run(rounds[..|rounds| - 1]), rounds[|rounds| - 1])
  }

  // ---- Framing does not depend on the reads ---------------------------------------------------------------

  lemma {:induction false} IndexPrefix(a: string, b: string, ch: char)
    requires ch !in a
    ensures Index(a + b, ch) == |a| + Index(b, ch)
  {
    if a == "" {
      assert a + b == b;
    } else {
      assert (a + b)[1..] == a[1..] + b && (a + b)[0] == a[0];
      IndexPrefix(a[1..], b, ch);
    }
  }

  lemma IndexNone(a: string, ch: char)
    requires ch !in a
    ensures Index(a, ch) == |a|
  {
  }

  lemma PieceComesOff(b: string, x: string)
    requires |b| == FULL && x != ""
    ensures Pieces(b + x) == [b] + Pieces(x)
  {
    assert (b + x)[..FULL] == b && (b + x)[FULL..] == x;
  }

  lemma TailComesOff(b: string, x: string)
    requires |b| == FULL && x != ""
    ensures Forced(b + x) == [b] + Forced(x) && Last(b + x) == Last(x)
  {
    assert (b + x)[..FULL] == b && (b + x)[FULL..] == x;
  }

  /** A full buffer that the next byte of the same line pushes out is a piece of its own. */
  lemma FullComesOff(b: string, t: string)
    requires |b| == FULL && '\n' !in b && t != "" && t[0] != '\n'
    ensures Frames(b + t) == [b] + Frames(t) && Remainder(b + t) == Remainder(t)
  {
    hide Index, Pieces, Forced, Last;
    IndexPrefix(b, t, '\n');
    var k := Index(t, '\n');
    if k == |t| {
      TailComesOff(b, t);
    } else {
      PieceComesOff(b, t[..k]);
      assert (b + t)[..FULL + k] == b + t[..k] && (b + t)[FULL + k + 1..] == t[k + 1..];
      assert [b] + Pieces(t[..k]) + Frames(t[k + 1..]) == [b] + (Pieces(t[..k]) + Frames(t[k + 1..]));
    }
  }

  lemma LineComesOff(text: string, t: string)
    requires |text| <= FULL && '\n' !in text && t != "" && t[0] == '\n'
    ensures Frames(text + t) == [text] + Frames(t[1..]) && Remainder(text + t) == Remainder(t[1..])
  {
    IndexPrefix(text, t, '\n');
    assert (text + t)[..|text|] == text && (text + t)[|text| + 1..] == t[1..];
  }

  /** Reading on from a buffer gives the lines of the buffer's text and the new bytes together. */
  lemma {:induction false} ScanFrames(text: string, data: string)
    requires |text| <= FULL && '\n' !in text
    ensures Scan(text, data) == Scanned(Frames(text + data), Remainder(text + data))
    decreases |data|
  {
    if data == "" {
      hide Scan;
      ScanNothing(text);
      assert text + data == text;
      IndexNone(text, '\n');
    } else {
      var ch, rest := data[0], data[1..];
      if ch == '\n' {
        assert "" + rest == rest;
        ScanFrames("", rest);
        LineComesOff(text, data);
        hide Frames, Remainder;
      } else if |text| < FULL {
        hide Frames, Remainder;
        assert text + [ch] + rest == text + data;
        ScanFrames(text + [ch], rest);
      } else {
        hide Frames, Remainder;
        assert [ch] + rest == data;
        ScanFrames([ch], rest);
        FullComesOff(text, data);
      }
    }
  }

  lemma {:induction false} RemainderShort(s: string)
    ensures |Remainder(s)| <= FULL && '\n' !in Remainder(s)
    decreases |s|
  {
    var k := Index(s, '\n');
    if k == |s| {
      assert s[..k] == s;
      LastShort(s);
    } else {
      RemainderShort(s[k + 1..]);
    }
  }

  lemma {:induction false} LastShort(s: string)
    requires '\n' !in s
    ensures |Last(s)| <= FULL && '\n' !in Last(s)
    decreases |s|
  {
    if |s| > FULL {
      LastShort(s[FULL..]);
    }
  }

  lemma {:induction false} ScanAppend(text: string, a: string, b: string)
    requires |text| <= FULL
    ensures var x := Scan(text, a);
            var y := Scan(x.rest, b);
            Scan(text, a + b) == Scanned(x.lines + y.lines, y.rest)
    decreases |a|
  {
    if a == "" {
      assert a + b == b;
      assert [] + Scan(text, b).lines == Scan(text, b).lines;
    } else {
      assert (a + b)[0] == a[0] && (a + b)[1..] == a[1..] + b;
      var next := if a[0] == '\n' then "" else if |text| < FULL then text + [a[0]] else [a[0]];
      ScanAppend(next, a[1..], b);
    }
  }

  /** The buffer always holds exactly the unframed remainder, so a stream may be cut into reads anywhere. */
  lemma FramesAppend(a: string, b: string)
    ensures |Remainder(a)| <= FULL
    ensures Frames(a + b) == Frames(a) + Scan(Remainder(a), b).lines
    ensures Remainder(a + b) == Scan(Remainder(a), b).rest
  {
    RemainderShort(a);
    ScanAppend("", a, b);
    assert "" + a == a && "" + (a + b) == a + b;
    ScanFrames("", a);
    ScanFrames("", a + b);
  }

  /** No byte is lost, doubled or moved: the lines and the buffer spell the stream without its newlines. */
  lemma {:induction false} ScanKeepsBytes(text: string, data: string)
    requires |text| <= FULL
    ensures var r := Scan(text, data); Spelled(r.lines) + r.rest == text + WithoutNewlines(data)
    decreases |data|
  {
    if data != "" {
      var ch, rest := data[0], data[1..];
      if ch == '\n' || |text| == FULL {
        var next := if ch == '\n' then "" else [ch];
        ScanKeepsBytes(next, rest);
        var r := Scan(next, rest);
        assert ([text] + r.lines)[1..] == r.lines;
        assert text + Spelled(r.lines) + r.rest == text + (Spelled(r.lines) + r.rest);
      } else {
        ScanKeepsBytes(text + [ch], rest);
      }
    }
  }

  lemma FramesKeepBytes(s: string)
    ensures Spelled(Frames(s)) + Remainder(s) == WithoutNewlines(s)
  {
    assert "" + s == s;
    ScanFrames("", s);
    ScanKeepsBytes("", s);
  }

  /** A line is cut into whole pieces of 4199 bytes and what is left, and the pieces spell it. */
  lemma {:induction false} PiecesExactly(line: string)
    ensures Spelled(Pieces(line)) == line && Pieces(line) != []
    ensures forall k :: 0 <= k < |Pieces(line)| - 1 ==> |Pieces(line)[k]| == 4199
    ensures var last := Pieces(line)[|Pieces(line)| - 1]; |last| <= 4199 && (last == "" ==> line == "")
    decreases |line|
  {
    if |line| > FULL {
      PiecesExactly(line[FULL..]);
      assert line == line[..FULL] + line[FULL..];
    } else {
      OnePiece(line);
    }
  }

  lemma OnePiece(line: string)
    ensures Spelled([line]) == line
  {
    assert [line][1..] == [] && Spelled([]) == "";
    assert line + "" == line;
  }

  // ---- Whole runs ----------------------------------------------------------------------------------------

  /** The entries one connection contributed, in the order they were appended. */
  function From(log: seq<Record>, id: nat): seq<Entry> {
    if log == [] then []
    else
      var last := log[|log| - 1];
      From(log[..|log| - 1], id) + (if last.from == id then [last.entry] else [])
  }

  // The fate of a connection, told from the events alone.

  /** The connection ends: end of file, a failed read, or a hang-up. */
  predicate Ends(e: Event) {
    e.gone || (e.readable && |e.data| == 0)
  }

  function Arrives(e: Event): string {
    if e.readable then e.data else ""
  }

  /** The round in which each connection was accepted: a newcomer is, while fewer than 64 are open. */
  function Births(rounds: seq<Round>): (b: seq<nat>)
    ensures forall j :: 0 <= j < |b| ==> b[j] < |rounds|
    decreases |rounds|, 0
  {
    if rounds == [] then []
    else
      var before := rounds[..|rounds| - 1];
      if rounds[|rounds| - 1].newcomer.Some? && |OpenOnes(before)| < 64
      then Births(before) + [|rounds| - 1] else Births(before)
  }

  /** Accepted, and no event since was its end. */
  predicate Open(rounds: seq<Round>, j: nat)
    decreases |rounds|, 1
  {
    var b := Births(rounds);
    j < |b| && forall k :: b[j] <= k < |rounds| ==> !Ends(rounds[k].event(j))
  }

  function OpenOnes(rounds: seq<Round>): set<nat>
    decreases |rounds|, 2
  {
    set j | 0 <= j < |Births(rounds)| && Open(rounds, j)
  }

  /** Open when the last round's service begins. */
  predicate Reached(rounds: seq<Round>, j: nat)
    requires rounds != []
  {
    var b := Births(rounds);
    j < |b| && forall k :: b[j] <= k < |rounds| - 1 ==> !Ends(rounds[k].event(j))
  }

  /** The bytes that arrive on connection `id`, up to its end. */
  function Consumed(rounds: seq<Round>, id: nat): string {
    if rounds == [] then ""
    else
      Consumed(rounds[..|rounds| - 1], id)
        + (if Reached(rounds, id) then Arrives(rounds[|rounds| - 1].event(id)) else "")
  }

  function Find(conns: seq<Live>, id: nat): Option<Live> {
    if conns == [] then None else if conns[0].id == id then Some(conns[0]) else Find(conns[1..], id)
  }

  predicate DistinctIds(conns: seq<Live>) {
    conns == [] || (Find(conns[1..], conns[0].id).None? && DistinctIds(conns[1..]))
  }

  /** Records are numbered in the order they were appended, in 32 bits. */
  predicate Numbered(st: Store) {
    && st.seqNo == Low32(|st.log|)
    && forall k :: 0 <= k < |st.log| ==> st.log[k].seqNo == Low32(k)
  }

  lemma NextNumber(n: nat)
    ensures Low32(Low32(n) + 1) == Low32(n + 1)
  {
  }

  lemma EmitOne(st: Store, id: nat, line: string, j: nat)
    ensures From(Emit(st, id, line).log, j) == From(st.log, j) + (if j == id then [Parse(line)] else [])
    ensures Numbered(st) ==> Numbered(Emit(st, id, line))
  {
    hide Parse, Low32;
    assert Emit(st, id, line).log[..|st.log|] == st.log;
    if Numbered(st) {
      assert Low32(Low32(|st.log|) + 1) == Low32(|st.log| + 1) by {
        NextNumber(|st.log|);
      }
    }
  }

  lemma {:induction false} EmitMany(st: Store, id: nat, lines: seq<string>, j: nat)
    ensures From(EmitAll(st, id, lines).log, j) == From(st.log, j) + (if j == id then ParseAll(lines) else [])
    ensures Numbered(st) ==> Numbered(EmitAll(st, id, lines))
    decreases |lines|
  {
    hide Parse, Numbered, From;
    if lines != [] {
      EmitOne(st, id, lines[0], j);
      hide Emit;
      EmitMany(Emit(st, id, lines[0]), id, lines[1..], j);
      assert ParseAll(lines) == [Parse(lines[0])] + ParseAll(lines[1..]);
    }
  }

  /** What one turn of the service loop keeps of connection `j`. */
  lemma {:induction false} ServeKept(conns: seq<Live>, event: nat -> Event, st: Store, j: nat)
    requires Fits(conns) && DistinctIds(conns)
    ensures var r := Serve(conns, event, st);
            var c := Find(conns, j);
            && DistinctIds(r.kept)
            && (c.Some? ==> |c.value.text| <= FULL)
            && Find(r.kept, j)
               == if c.None? || Drops(event(j)) then None
                  else Some(c.value.(text := Scan(c.value.text, Read(event(j))).rest))
    decreases |conns|
  {
    hide Scan, Drops, Read, EmitAll;
    if conns != [] {
      var c := conns[0];
      var s := Scan(c.text, Read(event(c.id)));
      var st' := EmitAll(st, c.id, s.lines);
      ServeKept(conns[1..], event, st', j);
      ServeKept(conns[1..], event, st', c.id);
      var r := Serve(conns[1..], event, st');
      hide Serve;
      assert ([c.(text := s.rest)] + r.kept)[1..] == r.kept && [] + r.kept == r.kept;
    }
  }

  /** What one turn of the service loop appends for connection `j`. */
  lemma {:induction false} ServeEmits(conns: seq<Live>, event: nat -> Event, st: Store, j: nat)
    requires Fits(conns) && DistinctIds(conns)
    ensures var r := Serve(conns, event, st);
            var c := Find(conns, j);
            && (Numbered(st) ==> Numbered(r.store))
            && (c.Some? ==> |c.value.text| <= FULL)
            && From(r.store.log, j)
               == From(st.log, j)
                  + if c.None? then [] else ParseAll(Scan(c.value.text, Read(event(j))).lines)
    decreases |conns|
  {
    hide Scan, Drops, Read, EmitAll, Numbered, From, ParseAll;
    if conns != [] {
      var c := conns[0];
      var s := Scan(c.text, Read(event(c.id)));
      var st' := EmitAll(st, c.id, s.lines);
      EmitMany(st, c.id, s.lines, j);
      ServeEmits(conns[1..], event, st', j);
    }
  }

  lemma {:induction false} FindAppend(conns: seq<Live>, c: Live, j: nat)
    requires Find(conns, c.id).None? && DistinctIds(conns)
    ensures DistinctIds(conns + [c])
    ensures Find(conns + [c], j) == if j == c.id then Some(c) else Find(conns, j)
  {
    if conns != [] {
      assert (conns + [c])[1..] == conns[1..] + [c];
      FindAppend(conns[1..], c, j);
      FindAppend(conns[1..], c, conns[0].id);
    } else {
      assert (conns + [c])[1..] == [];
    }
  }

  /** What holds of connection `j` after every run. */
  ghost predicate Faithful(s: State, j: nat, consumed: string) {
    && From(s.store.log, j) == ParseAll(Frames(consumed))
    && (Find(s.conns, j).Some? ==> Find(s.conns, j).value.text == Remainder(consumed))
    && (j >= s.accepted ==> Find(s.conns, j).None? && consumed == "")
  }

  lemma AdmitKeeps(s: State, newcomer: Option<int>, j: nat, consumed: string)
    requires DistinctIds(s.conns) && Faithful(s, j, consumed)
    requires Find(s.conns, s.accepted).None?
    ensures DistinctIds(Admit(s, newcomer).conns) && Faithful(Admit(s, newcomer), j, consumed)
  {
    hide From, ParseAll, Frames;
    if newcomer.Some? && |s.conns| < NL_MAX_CONN {
      FindAppend(s.conns, Live(s.accepted, newcomer.value, ""), j);
    }
  }

  lemma ServeKeeps(a: State, event: nat -> Event, j: nat, consumed: string)
    requires Fits(a.conns) && DistinctIds(a.conns) && Faithful(a, j, consumed)
    ensures var r := Serve(a.conns, event, a.store);
            Faithful(State(r.kept, r.store, a.accepted), j,
                     consumed + (if Find(a.conns, j).Some? then Read(event(j)) else ""))
  {
    hide From, Frames, Scan, Serve, Remainder, Drops, Numbered, DistinctIds, Read, ParseAll, Find, Fits;
    ServeKept(a.conns, event, a.store, j);
    ServeEmits(a.conns, event, a.store, j);
    if Find(a.conns, j).Some? {
      var data := Read(event(j));
      FramesAppend(consumed, data);
      ParseAllAppend(Frames(consumed), Scan(Remainder(consumed), data).lines);
    } else {
      assert consumed + "" == consumed;
      NothingMore(From(a.store.log, j));
    }
  }

  lemma ParseAllAppend(a: seq<string>, b: seq<string>)
    ensures ParseAll(a + b) == ParseAll(a) + ParseAll(b)
  {
    hide Parse;
  }

  lemma NothingMore(a: seq<Entry>)
    ensures a + [] == a
  {
  }

  /** The bookkeeping that does not speak of one connection. */
  lemma {:induction false} RunOrderly(rounds: seq<Round>)
    ensures DistinctIds(Run(rounds).conns) && Numbered(Run(rounds).store)
    ensures forall c <- Run(rounds).conns :: c.id < Run(rounds).accepted
    decreases |rounds|
  {
    hide Numbered, Serve;
    if rounds != [] {
      var before, last := rounds[..|rounds| - 1], rounds[|rounds| - 1];
      RunOrderly(before);
      var s := Run(before);
      IdsBelow(s.conns, s.accepted);
      if last.newcomer.Some? && |s.conns| < NL_MAX_CONN {
        FindAppend(s.conns, Live(s.accepted, last.newcomer.value, ""), 0);
      }
      var a := Admit(s, last.newcomer);
      ServeKept(a.conns, last.event, a.store, 0);
      ServeEmits(a.conns, last.event, a.store, 0);
      ServeIds(a.conns, last.event, a.store, a.accepted);
    } else {
      StartNumbered();
    }
  }

  lemma StartNumbered()
    ensures Numbered(START.store)
  {
  }

  lemma {:induction false} IdsBelow(conns: seq<Live>, bound: nat)
    requires forall c <- conns :: c.id < bound
    ensures forall j: nat :: bound <= j ==> Find(conns, j).None?
  {
    if conns != [] {
      IdsBelow(conns[1..], bound);
    }
  }

  lemma {:induction false} ServeIds(conns: seq<Live>, event: nat -> Event, st: Store, bound: nat)
    requires Fits(conns) && forall c <- conns :: c.id < bound
    ensures forall c <- Serve(conns, event, st).kept :: c.id < bound
    decreases |conns|
  {
    hide Scan;
    if conns != [] {
      ServeIds(conns[1..], event, EmitAll(st, conns[0].id, Scan(conns[0].text, Read(event(conns[0].id))).lines), bound);
    }
  }

  /** The table of the listener is what the events say. */
  ghost predicate TableTold(s: State, rounds: seq<Round>) {
    && s.accepted == |Births(rounds)|
    && (forall j: nat :: Find(s.conns, j).Some? <==> Open(rounds, j))
    && (forall j: nat :: Find(s.conns, j).Some? && j < |Births(rounds)| ==>
          rounds[Births(rounds)[j]].newcomer == Some(Find(s.conns, j).value.fd))
  }

  function Ids(conns: seq<Live>): set<nat> {
    set c | c in conns :: c.id
  }

  lemma {:induction false} FindIds(conns: seq<Live>, j: nat)
    ensures Find(conns, j).Some? <==> j in Ids(conns)
  {
    if conns != [] {
      FindIds(conns[1..], j);
      assert conns == [conns[0]] + conns[1..];
      assert j in Ids(conns[1..]) ==> exists c :: c in conns[1..] && c.id == j;
    }
  }

  lemma {:induction false} CountIds(conns: seq<Live>)
    requires DistinctIds(conns)
    ensures |Ids(conns)| == |conns|
  {
    if conns == [] {
      assert Ids(conns) == {};
    } else {
      CountIds(conns[1..]);
      FindIds(conns[1..], conns[0].id);
      assert conns == [conns[0]] + conns[1..];
      assert Ids(conns) == {conns[0].id} + Ids(conns[1..]);
    }
  }

  /** As many connections are in the table as are open by the events. */
  lemma TableCount(s: State, rounds: seq<Round>)
    requires DistinctIds(s.conns) && TableTold(s, rounds)
    ensures |s.conns| == |OpenOnes(rounds)|
  {
    hide Births, Find, DistinctIds;
    CountIds(s.conns);
    forall j: nat ensures j in Ids(s.conns) <==> j in OpenOnes(rounds) {
      FindIds(s.conns, j);
    }
    assert Ids(s.conns) == OpenOnes(rounds);
  }

  /** After accepting, the table holds the connections that the last round's service reaches. */
  lemma AdmitTold(s: State, rounds: seq<Round>)
    requires rounds != [] && DistinctIds(s.conns) && (forall c <- s.conns :: c.id < s.accepted)
    requires TableTold(s, rounds[..|rounds| - 1])
    ensures var a := Admit(s, rounds[|rounds| - 1].newcomer);
            && a.accepted == |Births(rounds)|
            && (forall j: nat :: Find(a.conns, j).Some? <==> Reached(rounds, j))
            && (forall j: nat :: Find(a.conns, j).Some? && j < |Births(rounds)| ==>
                  rounds[Births(rounds)[j]].newcomer == Some(Find(a.conns, j).value.fd))
  {
    hide DistinctIds, OpenOnes;
    var before, last := rounds[..|rounds| - 1], rounds[|rounds| - 1];
    var a := Admit(s, last.newcomer);
    TableCount(s, before);
    IdsBelow(s.conns, s.accepted);
    forall j: nat
      ensures Find(a.conns, j).Some? <==> Reached(rounds, j)
      ensures Find(a.conns, j).Some? && j < |Births(rounds)| ==>
                rounds[Births(rounds)[j]].newcomer == Some(Find(a.conns, j).value.fd)
    {
      if last.newcomer.Some? && |s.conns| < NL_MAX_CONN {
        FindAppend(s.conns, Live(s.accepted, last.newcomer.value, ""), j);
      }
      SameBefore(rounds, j);
    }
  }

  /** A connection accepted earlier is reached if it was still open. */
  lemma SameBefore(rounds: seq<Round>, j: nat)
    requires rounds != []
    ensures var before := rounds[..|rounds| - 1];
            && |Births(before)| <= |Births(rounds)| <= |Births(before)| + 1
            && (j < |Births(before)| ==> Births(rounds)[j] == Births(before)[j])
            && (j < |Births(before)| ==> (Open(before, j) <==> Reached(rounds, j)))
            && (j == |Births(before)| < |Births(rounds)| ==>
                  Births(rounds)[j] == |rounds| - 1 && Reached(rounds, j))
  {
    hide OpenOnes;
    var before := rounds[..|rounds| - 1];
    if j < |Births(before)| {
      forall k | Births(before)[j] <= k < |before| ensures before[k] == rounds[k] {
      }
      if Reached(rounds, j) {
        forall k | Births(before)[j] <= k < |before| ensures !Ends(before[k].event(j)) {
          assert !Ends(rounds[k].event(j));
        }
      }
    }
  }

  lemma OpenFromReached(rounds: seq<Round>, j: nat)
    requires rounds != []
    ensures Open(rounds, j) <==> Reached(rounds, j) && !Ends(rounds[|rounds| - 1].event(j))
  {
    hide Births;
  }

  /** A connection is open after a run exactly when the events say so, under the descriptor it came with. */
  lemma {:induction false} OpenExactly(rounds: seq<Round>)
    ensures TableTold(Run(rounds), rounds)
    decreases |rounds|
  {
    hide Serve, Find, DistinctIds, Numbered, Births, Reached, Open;
    if rounds == [] {
      NobodyYet(rounds);
    } else {
      var before, last := rounds[..|rounds| - 1], rounds[|rounds| - 1];
      OpenExactly(before);
      RunOrderly(before);
      var s := Run(before);
      var a := Admit(s, last.newcomer);
      AdmitTold(s, rounds);
      RunOrderly(rounds);
      AdmitDistinct(s, last.newcomer);
      forall j: nat
        ensures Find(Run(rounds).conns, j).Some? <==> Open(rounds, j)
        ensures Find(Run(rounds).conns, j).Some? ==>
          Find(a.conns, j).Some? && Find(Run(rounds).conns, j).value.fd == Find(a.conns, j).value.fd
      {
        ServeKept(a.conns, last.event, a.store, j);
        OpenFromReached(rounds, j);
      }
    }
  }

  lemma NobodyYet(rounds: seq<Round>)
    requires rounds == []
    ensures TableTold(START, rounds)
  {
  }

  lemma AdmitDistinct(s: State, newcomer: Option<int>)
    requires DistinctIds(s.conns) && forall c <- s.conns :: c.id < s.accepted
    ensures DistinctIds(Admit(s, newcomer).conns)
  {
    IdsBelow(s.conns, s.accepted);
    if newcomer.Some? && |s.conns| < NL_MAX_CONN {
      FindAppend(s.conns, Live(s.accepted, newcomer.value, ""), 0);
    }
  }

  /** For any read sizes, interleaving, arrivals and closes: the records of a connection are the framing of
      the bytes that arrive on it up to its end, and while it is open its buffer holds what is left over. */
  lemma {:induction false} RecordsAreFrames(rounds: seq<Round>, j: nat)
    ensures Faithful(Run(rounds), j, Consumed(rounds, j))
    decreases |rounds|
  {
    hide Faithful, Serve, Find, DistinctIds, Numbered, Reached, Births;
    if rounds == [] {
      RunOrderly(rounds);
      EmptyFaithful(j);
    } else {
      var before, last := rounds[..|rounds| - 1], rounds[|rounds| - 1];
      RecordsAreFrames(before, j);
      RunOrderly(before);
      OpenExactly(before);
      var s := Run(before);
      IdsBelow(s.conns, s.accepted);
      AdmitTold(s, rounds);
      AdmitKeeps(s, last.newcomer, j, Consumed(before, j));
      ServeKeeps(Admit(s, last.newcomer), last.event, j, Consumed(before, j));
    }
  }

  lemma EmptyFaithful(j: nat)
    ensures Faithful(START, j, "")
  {
    assert Frames("") == [];
  }

  /** Records of one connection depend on its own bytes alone: not on how they were cut into reads, on what
      the other connections sent, or on where the connection stood in the table. */
  lemma OnlyOwnBytesMatter(a: seq<Round>, b: seq<Round>, i: nat, j: nat)
    requires Consumed(a, i) == Consumed(b, j)
    ensures From(Run(a).store.log, i) == From(Run(b).store.log, j)
  {
    hide Frames, ParseAll, From, Run, Consumed, Find, Births;
    RecordsAreFrames(a, i);
    RecordsAreFrames(b, j);
  }

  /** The k-th record ever appended carries k, in 32 bits. */
  lemma NumbersConsecutive(rounds: seq<Round>, k: nat)
    requires k < |Run(rounds).store.log|
    ensures Run(rounds).store.log[k].seqNo == Low32(k)
  {
    hide Run, DistinctIds;
    RunOrderly(rounds);
  }

  // ---- The listener, in place ------------------------------------------------------------------------------

  /** `struct conn` with its fixed buffer; `id` is the model's name for the connection. */
  datatype ConnFields = ConnFields(id: nat, fd: int, len: nat, buf: string)

  type Conn = c: ConnFields | |c.buf| == NL_LINE_MAX && c.len <= FULL
    witness ConnFields(0, 0, 0, seq(NL_LINE_MAX, _ => '\0'))

  function Opened(c: Conn): Live {
    Live(c.id, c.fd, c.buf[..c.len])
  }

  function AllOpened(cs: seq<Conn>): (r: seq<Live>)
    ensures Fits(r) && |r| == |cs| && forall i :: 0 <= i < |cs| ==> r[i] == Opened(cs[i])
  {
    seq(|cs|, i requires 0 <= i < |cs| => Opened(cs[i]))
  }

  /** The NUL written after the text ends the C string at the same place as the text's own first NUL. */
  lemma StringAt(buf: string, len: nat)
    requires len < |buf| && buf[len] == '\0'
    ensures CString(buf) == CString(buf[..len])
  {
    var k := Index(buf[..len], '\0');
    assert buf[..len][..k] == buf[..k];
    IndexPrefix(buf[..k], buf[k..], '\0');
    assert buf[..k] + buf[k..] == buf;
  }

  /** Overwriting the first space ends the level there and starts the message after it. */
  lemma SplitAt(buf: string, sp: nat)
    requires '\0' in buf && sp < |CString(buf)|
    ensures CString(buf[sp := '\0']) == CString(buf)[..sp]
    ensures CString(buf[sp := '\0'][sp + 1..]) == CString(buf)[sp + 1..]
  {
    var s, b := CString(buf), buf[sp := '\0'];
    LevelEnds(buf, s, sp);
    var k := |s|;
    assert b[sp + 1..] == s[sp + 1..] + buf[k..];
    MessageEnds(s[sp + 1..], buf[k..]);
  }

  lemma LevelEnds(buf: string, s: string, sp: nat)
    requires s <= buf && '\0' !in s && sp < |s|
    ensures CString(buf[sp := '\0']) == s[..sp]
  {
    var b := buf[sp := '\0'];
    assert b[..sp] == s[..sp] && b[..sp] + b[sp..] == b;
    IndexPrefix(b[..sp], b[sp..], '\0');
  }

  lemma MessageEnds(msg: string, rest: string)
    requires '\0' !in msg && rest != "" && rest[0] == '\0'
    ensures CString(msg + rest) == msg
  {
    IndexPrefix(msg, rest, '\0');
    assert (msg + rest)[..|msg|] == msg;
  }

  class Listener {
    var conns: array<Conn>
    var nc: nat
    var log: seq<Record>
    var seqNo: U32
    var accepted: nat

    ghost predicate Valid()
      reads this
    {
      conns.Length == NL_MAX_CONN && nc <= NL_MAX_CONN
    }

    ghost function View(): State
      reads this, conns
      requires Valid()
    {
      State(AllOpened(conns[..nc]), Store(log, seqNo), accepted)
    }

    constructor ()
      ensures Valid() && View() == START && fresh(conns)
    {
      conns := new Conn[NL_MAX_CONN](_ => ConnFields(0, 0, 0, seq(NL_LINE_MAX, _ => '\0')));
      nc, log, seqNo, accepted := 0, [], 0, 0;
    }

    /** `process_line` on the C string in `line`; what it leaves in the buffer comes back. */
    method ProcessLine(line: string, len: nat, id: nat) returns (buf: string)
      requires len < |line| && line[len] == '\0'
      modifies `log, `seqNo
      ensures |buf| == |line|
      ensures Store(log, seqNo) == Emit(old(Store(log, seqNo)), id, line[..len])
    {
      StringAt(line, len);
      buf := line;
      var end := Index(line, '\0');
      var sp := Index(line[..end], ' ');
      var entry: Entry;
      if sp < end {
        assert line[len] in line;
        SplitAt(line, sp);
        buf := buf[sp := '\0'];
        entry := Entry(CString(buf), CString(buf[sp + 1..]));
      } else {
        entry := Entry(CString(line), "");
      }
      log, seqNo := log + [Record(seqNo, id, entry)], Low32(seqNo + 1);
    }

    /** `feed`: byte by byte into the buffer of `conns[i]`, which it never overruns. */
    method Feed(i: nat, data: string)
      requires Valid() && i < nc
      modifies `log, `seqNo, conns
      ensures conns[..] == old(conns[..])[i := conns[i]]
      ensures conns[i].id == old(conns[i].id) && conns[i].fd == old(conns[i].fd)
      ensures var r := Scan(old(conns[i].buf[..conns[i].len]), data);
              && conns[i].buf[..conns[i].len] == r.rest
              && Store(log, seqNo) == EmitAll(old(Store(log, seqNo)), conns[i].id, r.lines)
    {
      hide Parse;
      ghost var was := conns[..];
      ghost var st, r := Store(log, seqNo), Scan(conns[i].buf[..conns[i].len], data);
      var n := 0;
      while n < |data|
        invariant n <= |data| && conns[..] == was[i := conns[i]]
        invariant conns[i].id == was[i].id && conns[i].fd == was[i].fd
        invariant var now := Scan(conns[i].buf[..conns[i].len], data[n..]);
                  && now.rest == r.rest
                  && EmitAll(Store(log, seqNo), was[i].id, now.lines) == EmitAll(st, was[i].id, r.lines)
      {
        ghost var text, rest := conns[i].buf[..conns[i].len], data[n..];
        assert rest[0] == data[n] && rest[1..] == data[n + 1..];
        var c, ch := conns[i], data[n];
        if ch == '\n' {
          var buf := c.buf[c.len := '\0'];
          assert buf[..c.len] == text;
          buf := ProcessLine(buf, c.len, c.id);
          conns[i] := c.(len := 0, buf := buf);
          assert conns[i].buf[..0] == "";
          LinesStep(text, Scan("", rest[1..]).lines);
        } else if c.len < FULL {
          conns[i] := c.(buf := c.buf[c.len := ch], len := c.len + 1);
          assert conns[i].buf[..conns[i].len] == text + [ch];
        } else {
          var buf := c.buf[c.len := '\0'];
          assert buf[..c.len] == text;
          buf := ProcessLine(buf, c.len, c.id);
          conns[i] := c.(len := 1, buf := buf[0 := ch]);
          assert conns[i].buf[..1] == [ch];
          LinesStep(text, Scan([ch], rest[1..]).lines);
        }
        n := n + 1;
      }
    }

    /** The body of the service loop for `conns[i]`, up to keeping it or not. */
    method ServeSlot(i: nat, e: Event) returns (drop: bool)
      requires Valid() && i < nc && |e.data| <= TMP_SIZE
      modifies `log, `seqNo, conns
      ensures drop == Drops(e) && conns[..] == old(conns[..])[i := conns[i]]
      ensures var c := old(Opened(conns[i]));
              var r := Scan(c.text, Read(e));
              && Opened(conns[i]) == c.(text := r.rest)
              && Store(log, seqNo) == EmitAll(old(Store(log, seqNo)), c.id, r.lines)
    {
      hide Scan, EmitAll;
      ScanNothing(conns[i].buf[..conns[i].len]);
      drop := false;
      if e.readable {
        if e.data == "" {
          drop := true;
        } else {
          Feed(i, e.data);
        }
      }
      if e.gone {
        drop := true;
      }
    }

    /** The newcomer gets the next slot, or is closed at once. */
    method AcceptOne(newcomer: Option<int>)
      requires Valid()
      modifies this, conns
      ensures Valid() && conns == old(conns) && View() == Admit(old(View()), newcomer)
    {
      if newcomer.Some? && nc < NL_MAX_CONN {
        ghost var before := conns[..nc];
        conns[nc] := ConnFields(accepted, newcomer.value, 0, conns[nc].buf);
        nc, accepted := nc + 1, accepted + 1;
        AllOpenedAppend(before, conns[nc - 1]);
        assert conns[..nc] == before + [conns[nc - 1]];
      }
    }

    /** The service loop, compacting the connections that stay to the front of the same array. */
    method ServeAll(event: nat -> Event)
      requires Valid()
      requires forall id :: |event(id).data| <= TMP_SIZE
      modifies this, conns
      ensures Valid() && conns == old(conns)
      ensures var r := Serve(old(View()).conns, event, old(View()).store);
              View() == State(r.kept, r.store, old(accepted))
    {
      hide Scan, EmitAll, Serve, AllOpened, Opened, Drops, Read, Fits;
      ghost var final := Serve(AllOpened(conns[..nc]), event, Store(log, seqNo));
      var keep, i := 0, 0;
      assert conns[0..nc] == conns[..nc];
      while i < nc
        invariant Valid() && conns == old(conns) && nc == old(nc) && accepted == old(accepted)
        invariant keep <= i <= nc
        invariant var r := Serve(AllOpened(conns[i..nc]), event, Store(log, seqNo));
                  final == Served(AllOpened(conns[..keep]) + r.kept, r.store)
      {
        ghost var st, before, rest := Store(log, seqNo), conns[..keep], conns[i..nc];
        ServeStep(before, rest, event, st);
        var drop := ServeSlot(i, event(conns[i].id));
        assert conns[..keep] == before;
        if !drop {
          conns[keep] := conns[i];
          keep := keep + 1;
          assert conns[..keep] == before + [conns[keep - 1]];
          AllOpenedAppend(before, conns[keep - 1]);
        }
        i := i + 1;
        assert conns[i..nc] == rest[1..];
      }
      assert conns[i..nc] == [];
      NothingToServe(conns[..keep], event, Store(log, seqNo));
      nc := keep;
    }

    /** One turn of `listener` after `poll`. */
    method TakeTurn(newcomer: Option<int>, event: nat -> Event)
      requires Valid()
      requires forall id :: |event(id).data| <= TMP_SIZE
      modifies this, conns
      ensures Valid() && conns == old(conns)
      ensures View() == Turn(old(View()), Round(newcomer, event))
    {
      hide Admit, Serve, AllOpened;
      AcceptOne(newcomer);
      ServeAll(event);
    }
  }

  lemma AllOpenedAppend(cs: seq<Conn>, c: Conn)
    ensures AllOpened(cs + [c]) == AllOpened(cs) + [Opened(c)]
  {
  }

  lemma NothingToServe(cs: seq<Conn>, event: nat -> Event, st: Store)
    ensures Serve(AllOpened([]), event, st) == Served([], st) && AllOpened(cs) + [] == AllOpened(cs)
  {
  }

  lemma LinesStep(line: string, lines: seq<string>)
    ensures forall st, id :: EmitAll(st, id, [line] + lines) == EmitAll(Emit(st, id, line), id, lines)
  {
    assert ([line] + lines)[1..] == lines;
  }

  lemma ScanNothing(text: string)
    requires |text| <= FULL
    ensures Scan(text, "") == Scanned([], text)
    ensures forall st, id :: EmitAll(st, id, []) == st
  {
  }

  lemma ServeStep(before: seq<Conn>, cs: seq<Conn>, event: nat -> Event, st: Store)
    requires cs != []
    ensures var c := Opened(cs[0]);
            var e := event(c.id);
            var s := Scan(c.text, Read(e));
            var r := Serve(AllOpened(cs[1..]), event, EmitAll(st, c.id, s.lines));
            var now := Serve(AllOpened(cs), event, st);
            && c.id == cs[0].id && now.store == r.store
            && AllOpened(before) + now.kept
               == AllOpened(before) + (if Drops(e) then [] else [c.(text := s.rest)]) + r.kept
  {
    hide Scan, EmitAll, Drops;
    assert AllOpened(cs)[1..] == AllOpened(cs[1..]);
    var c := Opened(cs[0]);
    var r := Serve(AllOpened(cs[1..]), event, EmitAll(st, c.id, Scan(c.text, Read(event(c.id))).lines));
    assert AllOpened(before) + ([] + r.kept) == AllOpened(before) + [] + r.kept;
    forall l: Live ensures AllOpened(before) + ([l] + r.kept) == AllOpened(before) + [l] + r.kept {
    }
  }
}
