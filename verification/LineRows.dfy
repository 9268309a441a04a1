/** The row matrix of a line-number program (section 6.2 of the DWARF 4 standard) and the row for an address. */
module LineRows {
  import opened Options

  datatype LineRow = LineRow(address: nat, line: nat, file: nat)

  /** What a line-number program does that can be seen from outside. */
  datatype Event = Emit(row: LineRow) | EndSequence(address: nat)

  /** The rows of one sequence, and the address just past it if the sequence was ended. */
  datatype Sequence = Sequence(rows: seq<LineRow>, end: Option<nat>)

  /** A row of the matrix: row `row` of sequence `sequence`. */
  datatype Position = Position(sequence: nat, row: nat)

  // ---- the full matrix ----

  /** All sequences of the program, `rows` being those of the first one so far. */
  function Sequences(ev: seq<Event>, rows: seq<LineRow>): seq<Sequence>
    decreases |ev|
  {
    if ev == [] then if rows == [] then [] else [Sequence(rows, None)]
    else match ev[0]
      case Emit(r) => Sequences(ev[1..], rows + [r])
      case EndSequence(a) => [Sequence(rows, Some(a))] + Sequences(ev[1..], [])
  }

  /** The address up to which a sequence is known to reach. */
  function Reach(s: Sequence): nat
    requires s.rows != []
  {
    if s.end.Some? then s.end.value else s.rows[|s.rows| - 1].address
  }

  predicate Covers(s: Sequence, pc: nat) { s.rows != [] && s.rows[0].address <= pc < Reach(s) }

  /** Where the last row at or below `pc` is. */
  function Latest(rows: seq<LineRow>, pc: nat): (k: Option<nat>)
    ensures k.Some? ==> k.value < |rows| && rows[k.value].address <= pc
    ensures k.Some? ==> forall j | k.value < j < |rows| :: rows[j].address > pc
    ensures k.None? ==> forall j | 0 <= j < |rows| :: rows[j].address > pc
  {
    if rows == [] then None
    else if rows[|rows| - 1].address <= pc then Some(|rows| - 1)
    else Latest(rows[..|rows| - 1], pc)
  }

  function Later(p: Option<Position>): Option<Position> {
    match p
    case None => None
    case Some(at) => Some(Position(at.sequence + 1, at.row))
  }

  /** The row for `pc`: the last one at or below it in the first sequence that covers it. */
  function LookupAt(seqs: seq<Sequence>, pc: nat): Option<Position> {
    if seqs == [] then None
    else if Covers(seqs[0], pc) then
      match Latest(seqs[0].rows, pc)
      case None => None
      case Some(k) => Some(Position(0, k))
    else Later(LookupAt(seqs[1..], pc))
  }

  /** What a row of the matrix says. */
  function RowAt(seqs: seq<Sequence>, p: Option<Position>): Option<(nat, nat)> {
    match p
    case None => None
    case Some(at) =>
      if at.sequence < |seqs| && at.row < |seqs[at.sequence].rows| then
        var r := seqs[at.sequence].rows[at.row];
        Some((r.line, r.file))
      else None
  }

  // ---- looking while the program runs ----

  /** The row found by watching the events go by: remember the last row at or below `pc`, and stop at the first sign
      that the sequence goes past `pc`. A file of 0 stands for no row. */
  function Watch(ev: seq<Event>, pc: nat, line: nat, file: nat): Option<(nat, nat)>
    decreases |ev|
  {
    if ev == [] then None
    else match ev[0]
      case Emit(r) =>
        if r.address > pc then if file != 0 then Some((line, file)) else Watch(ev[1..], pc, line, file)
        else Watch(ev[1..], pc, r.line, r.file)
      case EndSequence(a) =>
        if pc < a && file != 0 then Some((line, file)) else Watch(ev[1..], pc, line, 0)
  }

  /** Row `i` of the sequence, or its end, is above `pc`. */
  predicate Beyond(s: Sequence, pc: nat, i: nat)
    requires i <= |s.rows|
  {
    if i < |s.rows| then s.rows[i].address > pc else s.end.Some? && s.end.value > pc
  }

  /** Row `i`, or the end, makes a watcher stop: it is above `pc` and the latest earlier row at or below `pc` has a
      file. */
  predicate Stops(s: Sequence, pc: nat, i: nat)
    requires i <= |s.rows|
  {
    Beyond(s, pc, i) && var k := Latest(s.rows[..i], pc); k.Some? && s.rows[k.value].file != 0
  }

  /** The first stop from `i` on. */
  function Stop(s: Sequence, pc: nat, i: nat): (k: Option<nat>)
    requires i <= |s.rows|
    ensures k.Some? ==> i <= k.value <= |s.rows| && Stops(s, pc, k.value)
    ensures k.Some? ==> forall j: nat | i <= j < k.value :: !Stops(s, pc, j)
    ensures k.None? ==> forall j: nat | i <= j <= |s.rows| :: !Stops(s, pc, j)
    decreases |s.rows| - i
  {
    if Stops(s, pc, i) then Some(i) else if i == |s.rows| then None else Stop(s, pc, i + 1)
  }

  /** The row that a watcher remembers at its first stop. */
  function WatchAt(seqs: seq<Sequence>, pc: nat): Option<Position> {
    if seqs == [] then None
    else match Stop(seqs[0], pc, 0)
      case Some(i) => Some(Position(0, Latest(seqs[0].rows[..i], pc).value))
      case None => Later(WatchAt(seqs[1..], pc))
  }

  // ---- the watcher stops where the matrix says ----

  /** What is remembered of the rows of the current sequence. */
  ghost predicate Remembers(rows: seq<LineRow>, pc: nat, line: nat, file: nat) {
    match Latest(rows, pc)
    case None => file == 0
    case Some(k) => line == rows[k].line && file == rows[k].file
  }

  /** The first sequence starts with the rows so far. */
  lemma {:induction false} StartsWith(ev: seq<Event>, rows: seq<LineRow>)
    requires rows != []
    ensures var seqs := Sequences(ev, rows); seqs != [] && rows <= seqs[0].rows
    decreases |ev|
  {
    if ev != [] && ev[0].Emit? { StartsWith(ev[1..], rows + [ev[0].row]); }
  }

  /** The rows so far gave no reason to stop. */
  ghost predicate NoStopYet(seqs: seq<Sequence>, pc: nat, n: nat) {
    seqs != [] ==> n <= |seqs[0].rows| && forall j: nat | j < n :: !Stops(seqs[0], pc, j)
  }

  lemma RowAtLater(seqs: seq<Sequence>, p: Option<Position>)
    requires seqs != []
    ensures RowAt(seqs, Later(p)) == RowAt(seqs[1..], p)
  {
  }

  /** Going through the stops from where there was none before. */
  lemma StopResumes(s: Sequence, pc: nat, n: nat)
    requires n <= |s.rows| && forall j: nat | j < n :: !Stops(s, pc, j)
    ensures Stop(s, pc, 0) == Stop(s, pc, n)
  {
    var a, b := Stop(s, pc, 0), Stop(s, pc, n);
    assert a.Some? <==> b.Some?;
  }

  lemma LatestNext(rows: seq<LineRow>, r: LineRow, pc: nat)
    ensures Latest(rows + [r], pc) == if r.address <= pc then Some(|rows|) else Latest(rows, pc)
  {
    assert (rows + [r])[..|rows|] == rows;
  }

  /** Watching the events finds the row of the first stop in the matrix. */
  lemma {:induction false} WatchRow(ev: seq<Event>, rows: seq<LineRow>, pc: nat, line: nat, file: nat)
    requires Remembers(rows, pc, line, file) && NoStopYet(Sequences(ev, rows), pc, |rows|)
    ensures var seqs := Sequences(ev, rows); Watch(ev, pc, line, file) == RowAt(seqs, WatchAt(seqs, pc))
    decreases |ev|
  {
    hide Latest, Stop, Stops;
    if ev == [] {
      if rows != [] { Unfinished(rows, pc); }
    } else if ev[0].Emit? {
      StartsWith(ev[1..], rows + [ev[0].row]);
      AtRow(Sequences(ev, rows), rows, ev[0].row, pc, line, file);
      if !(ev[0].row.address > pc && file != 0) {
        var r := ev[0].row;
        WatchRow(ev[1..], rows + [r], pc, if r.address > pc then line else r.line,
                 if r.address > pc then file else r.file);
      }
    } else {
      AtEnd(Sequences(ev, rows), rows, ev[0].address, pc, line, file);
      assert Sequences(ev, rows)[1..] == Sequences(ev[1..], []);
      if !(pc < ev[0].address && file != 0) { WatchRow(ev[1..], [], pc, line, 0); }
    }
  }

  lemma Unfinished(rows: seq<LineRow>, pc: nat)
    requires var s := Sequence(rows, None); forall j: nat | j < |rows| :: !Stops(s, pc, j)
    ensures var seqs := [Sequence(rows, None)]; RowAt(seqs, WatchAt(seqs, pc)) == None
  {
    StopResumes(Sequence(rows, None), pc, |rows|);
  }

  lemma AtRow(seqs: seq<Sequence>, rows: seq<LineRow>, r: LineRow, pc: nat, line: nat, file: nat)
    requires seqs != [] && rows + [r] <= seqs[0].rows && Remembers(rows, pc, line, file)
    requires NoStopYet(seqs, pc, |rows|)
    ensures r.address > pc && file != 0 ==> RowAt(seqs, WatchAt(seqs, pc)) == Some((line, file))
    ensures !(r.address > pc && file != 0) ==> NoStopYet(seqs, pc, |rows| + 1)
    ensures r.address > pc ==> Remembers(rows + [r], pc, line, file)
    ensures r.address <= pc ==> Remembers(rows + [r], pc, r.line, r.file)
  {
    var s, n := seqs[0], |rows|;
    LatestNext(rows, r, pc);
    assert (rows + [r])[n] == r && s.rows[n] == r && s.rows[..n] == rows;
    assert Stops(s, pc, n) <==> r.address > pc && file != 0;
    StopResumes(s, pc, n);
  }

  lemma AtEnd(seqs: seq<Sequence>, rows: seq<LineRow>, a: nat, pc: nat, line: nat, file: nat)
    requires seqs != [] && seqs[0] == Sequence(rows, Some(a)) && Remembers(rows, pc, line, file)
    requires NoStopYet(seqs, pc, |rows|)
    ensures pc < a && file != 0 ==> RowAt(seqs, WatchAt(seqs, pc)) == Some((line, file))
    ensures !(pc < a && file != 0) ==> RowAt(seqs, WatchAt(seqs, pc)) == RowAt(seqs[1..], WatchAt(seqs[1..], pc))
    ensures Remembers([], pc, line, 0) && NoStopYet(seqs[1..], pc, 0)
  {
    var s, n := seqs[0], |rows|;
    assert s.rows[..n] == rows;
    assert Stops(s, pc, n) <==> pc < a && file != 0;
    StopResumes(s, pc, n);
    RowAtLater(seqs, WatchAt(seqs[1..], pc));
  }

  // ---- when the two find the same row ----

  /** The first stop of the program is row `i` (or the end) of sequence `q`. */
  ghost predicate FirstStop(seqs: seq<Sequence>, pc: nat, q: nat, i: nat) {
    && q < |seqs| && Stop(seqs[q], pc, 0) == Some(i)
    && forall p: nat | p < q :: Stop(seqs[p], pc, 0) == None
  }

  ghost predicate FirstCover(seqs: seq<Sequence>, pc: nat, q: nat) {
    q < |seqs| && Covers(seqs[q], pc) && forall p: nat | p < q :: !Covers(seqs[p], pc)
  }

  /** The matrix bears a stopping watcher out: the sequence of the first stop is the first that covers `pc`, and no row
      at or below `pc` follows the stop in it; and where nothing makes a watcher stop, no sequence covers `pc`. */
  ghost predicate InStep(seqs: seq<Sequence>, pc: nat) {
    && (forall q: nat, i: nat | FirstStop(seqs, pc, q, i) ::
          FirstCover(seqs, pc, q) && forall j | i < j < |seqs[q].rows| :: seqs[q].rows[j].address > pc)
    && ((forall q: nat | q < |seqs| :: Stop(seqs[q], pc, 0) == None) ==>
          forall q: nat | q < |seqs| :: !Covers(seqs[q], pc))
  }

  /** At the first stop the latest earlier row is the one at `at`. */
  ghost predicate StopsOn(seqs: seq<Sequence>, pc: nat, at: Position, i: nat) {
    FirstStop(seqs, pc, at.sequence, i) && Latest(seqs[at.sequence].rows[..i], pc) == Some(at.row)
  }

  lemma RowBefore(s: Sequence, pc: nat, i: nat)
    requires Stop(s, pc, 0) == Some(i)
    ensures i <= |s.rows| && Latest(s.rows[..i], pc).Some?
  {
  }

  lemma {:induction false} WatchAtIs(seqs: seq<Sequence>, pc: nat)
    ensures match WatchAt(seqs, pc)
            case None => forall q: nat | q < |seqs| :: Stop(seqs[q], pc, 0) == None
            case Some(at) => exists i: nat :: StopsOn(seqs, pc, at, i)
  {
    hide Latest, Stop;
    if seqs != [] {
      var rest := seqs[1..];
      WatchAtIs(rest, pc);
      if Stop(seqs[0], pc, 0).Some? {
        var i := Stop(seqs[0], pc, 0).value;
        RowBefore(seqs[0], pc, i);
        assert StopsOn(seqs, pc, WatchAt(seqs, pc).value, i);
      } else if WatchAt(rest, pc).Some? {
        var at := WatchAt(rest, pc).value;
        var i: nat :| StopsOn(rest, pc, at, i);
        assert forall p: nat | 0 < p < |seqs| :: seqs[p] == rest[p - 1];
        assert StopsOn(seqs, pc, WatchAt(seqs, pc).value, i);
      } else {
        assert forall p: nat | 0 < p < |seqs| :: seqs[p] == rest[p - 1];
      }
    }
  }

  lemma {:induction false} LookupAtIs(seqs: seq<Sequence>, pc: nat)
    ensures match LookupAt(seqs, pc)
            case None => forall q: nat | q < |seqs| :: !Covers(seqs[q], pc)
            case Some(at) => FirstCover(seqs, pc, at.sequence) && Latest(seqs[at.sequence].rows, pc) == Some(at.row)
  {
    if seqs != [] {
      var rest := seqs[1..];
      LookupAtIs(rest, pc);
      assert forall p: nat | 0 < p < |seqs| :: seqs[p] == rest[p - 1];
    }
  }

  /** The first stop is one only. */
  lemma OneFirstStop(seqs: seq<Sequence>, pc: nat, q: nat, i: nat, q': nat, i': nat)
    requires FirstStop(seqs, pc, q, i) && FirstStop(seqs, pc, q', i')
    ensures q == q' && i == i'
  {
  }

  lemma OneFirstCover(seqs: seq<Sequence>, pc: nat, q: nat, q': nat)
    requires FirstCover(seqs, pc, q) && FirstCover(seqs, pc, q')
    ensures q == q'
  {
  }

  /** The latest row before a stop is the latest of all exactly if no row at or below `pc` follows. */
  lemma LatestOfAll(s: Sequence, pc: nat, i: nat)
    requires i <= |s.rows| && Stops(s, pc, i)
    ensures Latest(s.rows, pc) == Latest(s.rows[..i], pc) <==> forall j | i < j < |s.rows| :: s.rows[j].address > pc
  {
    var k, all := Latest(s.rows[..i], pc).value, Latest(s.rows, pc);
    assert s.rows[k].address <= pc;
    if all == Some(k) {
      assert forall j | k < j < |s.rows| :: s.rows[j].address > pc;
    } else {
      assert all.Some? && all.value > k;
      assert all.value >= i;
    }
  }

  /** For every program and every address: the watcher and the matrix find the same row if and only if the matrix
      bears the first stop out. */
  lemma SameRowIff(seqs: seq<Sequence>, pc: nat)
    ensures WatchAt(seqs, pc) == LookupAt(seqs, pc) <==> InStep(seqs, pc)
  {
    hide Latest, Stop, WatchAt, LookupAt, Covers, Stops;
    WatchAtIs(seqs, pc);
    LookupAtIs(seqs, pc);
    var w, l := WatchAt(seqs, pc), LookupAt(seqs, pc);
    if w.Some? {
      var q := w.value.sequence;
      var i: nat :| StopsOn(seqs, pc, w.value, i);
      forall q': nat, i': nat | FirstStop(seqs, pc, q', i')
        ensures q' == q && i' == i
      {
        OneFirstStop(seqs, pc, q, i, q', i');
      }
      assert Stop(seqs[q], pc, 0) == Some(i) && i <= |seqs[q].rows|;
      LatestOfAll(seqs[q], pc, i);
      if l.Some? && FirstCover(seqs, pc, q) { OneFirstCover(seqs, pc, q, l.value.sequence); }
    } else {
      forall q: nat, i: nat
        ensures !FirstStop(seqs, pc, q, i)
      {
      }
      if l.Some? { assert Covers(seqs[l.value.sequence], pc); }
    }
  }

  // ---- programs as compilers write them ----

  /** Addresses never go down, up to the end of the sequence. */
  predicate Ascending(s: Sequence) {
    && (forall i, j | 0 <= i < j < |s.rows| :: s.rows[i].address <= s.rows[j].address)
    && (s.rows != [] ==> s.rows[|s.rows| - 1].address <= Reach(s))
  }

  predicate WellFormed(seqs: seq<Sequence>) {
    && (forall k | 0 <= k < |seqs| :: Ascending(seqs[k]))
    && (forall k | 0 <= k < |seqs| :: forall i | 0 <= i < |seqs[k].rows| :: seqs[k].rows[i].file != 0)
  }

  /** In an ascending sequence with files a watcher stops exactly if the sequence covers `pc`. */
  lemma StopsIffCovers(s: Sequence, pc: nat)
    requires Ascending(s) && forall i | 0 <= i < |s.rows| :: s.rows[i].file != 0
    ensures Stop(s, pc, 0).Some? <==> Covers(s, pc)
  {
    var n := |s.rows|;
    if Stop(s, pc, 0).Some? {
      var i := Stop(s, pc, 0).value;
      var k := Latest(s.rows[..i], pc).value;
      assert s.rows[0].address <= s.rows[k].address <= pc;
      if i < n { assert s.rows[i].address <= s.rows[n - 1].address; }
    } else if Covers(s, pc) {
      var i := if s.rows[n - 1].address > pc then n - 1 else n;
      assert i > 0;
      assert s.rows[..i][0] == s.rows[0];
      assert Stops(s, pc, i);
    }
  }

  lemma WellFormedInStep(seqs: seq<Sequence>, pc: nat)
    requires WellFormed(seqs)
    ensures InStep(seqs, pc)
  {
    forall q: nat | q < |seqs|
      ensures Stop(seqs[q], pc, 0).Some? <==> Covers(seqs[q], pc)
    {
      assert Ascending(seqs[q]);
      StopsIffCovers(seqs[q], pc);
    }
    forall q: nat, i: nat | FirstStop(seqs, pc, q, i)
      ensures forall j | i < j < |seqs[q].rows| :: seqs[q].rows[j].address > pc
    {
      assert Ascending(seqs[q]) && Stops(seqs[q], pc, i);
    }
  }

  /** What the watcher finds in a program, and when that is what the full matrix gives. */
  lemma WatchIsLookup(ev: seq<Event>, pc: nat)
    ensures var seqs := Sequences(ev, []);
            && Watch(ev, pc, 0, 0) == RowAt(seqs, WatchAt(seqs, pc))
            && (WatchAt(seqs, pc) == LookupAt(seqs, pc) <==> InStep(seqs, pc))
            && (WellFormed(seqs) ==> InStep(seqs, pc))
  {
    var seqs := Sequences(ev, []);
    WatchRow(ev, [], pc, 0, 0);
    SameRowIff(seqs, pc);
    if WellFormed(seqs) { WellFormedInStep(seqs, pc); }
  }

  // ---- where they differ ----

  /** Where addresses go down: after rows at 0 and 9 a row at 4 comes too late for the watcher of 5, but not for the
      watcher of 2. */
  lemma DescendingDiffers()
    ensures var seqs := [Sequence([LineRow(0, 2, 1), LineRow(9, 3, 1), LineRow(4, 4, 1)], Some(12))];
            && !WellFormed(seqs)
            && WatchAt(seqs, 5) == Some(Position(0, 0)) && LookupAt(seqs, 5) == Some(Position(0, 2))
            && WatchAt(seqs, 2) == LookupAt(seqs, 2) == Some(Position(0, 0))
  {
    var rows := [LineRow(0, 2, 1), LineRow(9, 3, 1), LineRow(4, 4, 1)];
    var s := Sequence(rows, Some(12));
    assert !Ascending(s) by { assert rows[1].address > rows[2].address; }
    assert [s][0] == s;
    forall pc: nat | 0 <= pc < 9
      ensures Stop(s, pc, 0) == Some(1) && Latest(rows[..1], pc) == Some(0)
    {
      assert !Stops(s, pc, 0);
      assert rows[..1] == [rows[0]];
      assert Latest(rows[..1], pc) == Some(0);
      assert Stops(s, pc, 1);
    }
    assert Latest(rows, 5) == Some(2);
    assert rows[..2][..1] == rows[..1] && Latest(rows[..2], 2) == Some(0);
    assert Latest(rows, 2) == Some(0);
  }

  /** Where a row has file 0: the watcher takes it for no row and goes on. */
  lemma FileZeroDiffers()
    ensures var seqs := [Sequence([LineRow(0, 2, 0)], Some(12))];
            && Ascending(seqs[0]) && !WellFormed(seqs)
            && WatchAt(seqs, 5) == None && LookupAt(seqs, 5) == Some(Position(0, 0))
  {
    var rows := [LineRow(0, 2, 0)];
    var s := Sequence(rows, Some(12));
    assert [s][0] == s && rows[0].file == 0;
    assert !Stops(s, 5, 0);
    assert rows[..1] == rows && Latest(rows, 5) == Some(0);
    assert !Stops(s, 5, 1);
    assert Stop(s, 5, 0) == None;
  }
}
