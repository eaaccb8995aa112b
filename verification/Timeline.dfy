/**
 The timeline of one instruction in the pipeline viewer. Time is cut into rows of `width`
 cycles; each stage's letter goes at the column of its tick, and dots fill the rest. A
 timeline shorter than a row is printed in one row, wrapping around.
 */
module Timeline {
  import opened Text

  /** Cycles in a row, ticks in a cycle and ticks in a row. */
  datatype Grid = Grid(width: nat, cycle: nat, row: nat) {
    ghost predicate Valid() {
      width > 0 && cycle > 0 && row == width * cycle
    }
  }

  const LETTERS := "fdnpicrs"
  const DISPATCH := 3
  const ISSUE := 4
  const RETIRE := 6

  /** Stages in order, fetch first and the store completion last if shown; zero for a stage not reached. */
  ghost predicate Reached(ticks: seq<nat>) {
    7 <= |ticks| <= 8 && ticks[0] > 0 && forall s :: 0 <= s < |ticks| ==> ticks[s] == 0 || ticks[s] >= ticks[0]
  }

  function Latest(ticks: seq<nat>): (m: nat)
    requires ticks != []
    ensures forall s :: 0 <= s < |ticks| ==> ticks[s] <= m
  {
    var last := ticks[|ticks| - 1];
    if |ticks| == 1 then last
    else
      var m := Latest(ticks[..|ticks| - 1]);
      assert forall s :: 0 <= s < |ticks| - 1 ==> ticks[..|ticks| - 1][s] == ticks[s];
      if m < last then last else m
  }

  // ----- Rows

  function Base(g: Grid, ticks: seq<nat>): nat
    requires ticks != [] && g.row > 0
  {
    ticks[0] / g.row * g.row
  }

  function Lines(g: Grid, ticks: seq<nat>): int
    requires ticks != [] && g.row > 0
  {
    if Latest(ticks) - ticks[0] < g.row then 1 else (Latest(ticks) - Base(g, ticks)) / g.row + 1
  }

  function Begin(g: Grid, ticks: seq<nat>, i: nat): nat
    requires ticks != [] && g.row > 0
  {
    Base(g, ticks) + i * g.row
  }

  /** A single row goes on for as long as it has waited for the fetch. */
  function End(g: Grid, ticks: seq<nat>, i: nat): int
    requires ticks != [] && g.row > 0
  {
    Begin(g, ticks, i) + g.row + if Lines(g, ticks) == 1 then ticks[0] - Base(g, ticks) else 0
  }

  predicate InRow(g: Grid, ticks: seq<nat>, i: nat, t: nat)
    requires ticks != [] && g.row > 0
  {
    t != 0 && Begin(g, ticks, i) <= t < End(g, ticks, i)
  }

  lemma QuotientIs(d: nat, w: nat, i: nat)
    requires w > 0
    ensures i * w <= d < i * w + w <==> i == d / w
  {
    var q := d / w;
    assert d == q * w + d % w;
    MulMono(i + 1, q, w);
    MulMono(q + 1, i, w);
    assert (i + 1) * w == i * w + w && (q + 1) * w == q * w + w;
  }

  lemma QuotientUnique(a: nat, q: nat, r: nat, w: nat)
    requires w > 0 && r < w && a == q * w + r
    ensures a / w == q && a % w == r
  {
    QuotientIs(a, w, q);
    assert a == a / w * w + a % w;
  }

  lemma BaseIs(g: Grid, ticks: seq<nat>)
    requires ticks != [] && g.row > 0
    ensures Base(g, ticks) <= ticks[0] < Base(g, ticks) + g.row
  {
    QuotientIs(ticks[0], g.row, ticks[0] / g.row);
  }

  lemma RowPositive(g: Grid)
    requires g.Valid()
    ensures g.row > 0
  {
    MulMono(1, g.width, g.cycle);
  }

  /** The row a tick falls in. */
  function RowOf(g: Grid, ticks: seq<nat>, t: nat): int
    requires ticks != [] && g.row > 0
  {
    if Lines(g, ticks) == 1 then 0 else (t - Base(g, ticks)) / g.row
  }

  lemma OneRow(g: Grid, ticks: seq<nat>, t: nat)
    requires g.row > 0 && Reached(ticks) && ticks[0] <= t <= Latest(ticks) && Lines(g, ticks) == 1
    ensures InRow(g, ticks, 0, t)
  {
    BaseIs(g, ticks);
    var w, d := g.row, Latest(ticks) - Base(g, ticks);
    if Latest(ticks) - ticks[0] >= w {
      QuotientIs(d, w, 0);
    }
  }

  lemma ManyRows(g: Grid, ticks: seq<nat>, t: nat, i: nat)
    requires g.row > 0 && Reached(ticks) && ticks[0] <= t <= Latest(ticks) && Lines(g, ticks) != 1
    ensures InRow(g, ticks, i, t) <==> i == RowOf(g, ticks, t)
    ensures 0 <= RowOf(g, ticks, t) < Lines(g, ticks)
  {
    BaseIs(g, ticks);
    var w, d, l := g.row, t - Base(g, ticks), Latest(ticks) - Base(g, ticks);
    QuotientIs(d, w, i);
    QuotientMono(d, l, w);
  }

  lemma MulMono(x: nat, y: nat, w: nat)
    ensures x <= y ==> x * w <= y * w
  {
  }

  lemma QuotientMono(a: nat, b: nat, w: nat)
    requires w > 0 && a <= b
    ensures 0 <= a / w <= b / w
  {
    var p, q := a / w, b / w;
    assert a == p * w + a % w && b == q * w + b % w;
    MulMono(q + 1, p, w);
    assert (q + 1) * w == q * w + w;
  }

  /** Every stage reached falls in exactly one printed row. */
  lemma ExactlyOneRow(g: Grid, ticks: seq<nat>, s: nat)
    requires g.Valid() && Reached(ticks) && s < |ticks| && ticks[s] != 0
    ensures g.row > 0 && 0 <= RowOf(g, ticks, ticks[s]) < Lines(g, ticks)
    ensures forall i: nat :: i < Lines(g, ticks) ==> (InRow(g, ticks, i, ticks[s]) <==> i == RowOf(g, ticks, ticks[s]))
  {
    RowPositive(g);
    if Lines(g, ticks) == 1 {
      OneRow(g, ticks, ticks[s]);
    } else {
      forall i: nat
        ensures InRow(g, ticks, i, ticks[s]) <==> i == RowOf(g, ticks, ticks[s])
        ensures 0 <= RowOf(g, ticks, ticks[s]) < Lines(g, ticks)
      {
        ManyRows(g, ticks, ticks[s], i);
      }
      ManyRows(g, ticks, ticks[s], 0);
    }
  }

  // ----- A row of marks

  datatype Mark = Mark(col: nat, letter: char)

  function Dots(dot: char, n: int): string {
    if n <= 0 then "" else Dots(dot, n - 1) + [dot]
  }

  function Pos(marks: seq<Mark>): nat {
    if marks == [] then 0 else marks[|marks| - 1].col + 1
  }

  function Ink(marks: seq<Mark>, dot: char): string {
    if marks == [] then ""
    else
      var front, last := marks[..|marks| - 1], marks[|marks| - 1];
      Ink(front, dot) + Dots(dot, last.col - Pos(front)) + [last.letter]
  }

  function Cells(marks: seq<Mark>, width: nat, dot: char): string {
    Ink(marks, dot) + Dots(dot, width - Pos(marks))
  }

  ghost predicate InOrder(marks: seq<Mark>, width: nat) {
    (forall j :: 0 <= j < |marks| ==> marks[j].col < width)
    && forall j, k :: 0 <= j < k < |marks| ==> marks[j].col <= marks[k].col
  }

  ghost predicate Distinct(marks: seq<Mark>) {
    forall j, k :: 0 <= j < k < |marks| ==> marks[j].col != marks[k].col
  }

  /** Marks that share a column with the one before. */
  function Repeats(marks: seq<Mark>): nat {
    if |marks| < 2 then 0
    else Repeats(marks[..|marks| - 1]) + if marks[|marks| - 1].col == marks[|marks| - 2].col then 1 else 0
  }

  lemma {:induction false} DotsLength(dot: char, n: int)
    ensures |Dots(dot, n)| == (if n <= 0 then 0 else n) && forall i :: 0 <= i < |Dots(dot, n)| ==> Dots(dot, n)[i] == dot
  {
    if n > 0 {
      DotsLength(dot, n - 1);
    }
  }

  lemma {:induction false} InkLength(marks: seq<Mark>, width: nat, dot: char)
    requires InOrder(marks, width)
    ensures |Ink(marks, dot)| == Pos(marks) + Repeats(marks)
  {
    if marks != [] {
      var front, last := marks[..|marks| - 1], marks[|marks| - 1];
      InkLength(front, width, dot);
      DotsLength(dot, last.col - Pos(front));
    }
  }

  lemma {:induction false} RepeatsIffNotDistinct(marks: seq<Mark>, width: nat)
    requires InOrder(marks, width)
    ensures Repeats(marks) == 0 <==> Distinct(marks)
  {
    if |marks| >= 2 {
      var front := marks[..|marks| - 1];
      RepeatsIffNotDistinct(front, width);
      if Distinct(marks) {
        assert Distinct(front);
      }
      if Repeats(marks) == 0 {
        forall j, k | 0 <= j < k < |marks|
          ensures marks[j].col != marks[k].col
        {
          assert k < |front| ==> front[j].col != front[k].col;
          assert k == |front| && j < |front| - 1 ==> front[j].col != front[|front| - 1].col;
        }
      }
    }
  }

  /** Each repeat pushes the row one cell beyond its width. */
  lemma CellsLength(marks: seq<Mark>, width: nat, dot: char)
    requires InOrder(marks, width)
    ensures |Cells(marks, width, dot)| == width + Repeats(marks)
    ensures |Cells(marks, width, dot)| == width <==> Distinct(marks)
  {
    InkLength(marks, width, dot);
    DotsLength(dot, width - Pos(marks));
    RepeatsIffNotDistinct(marks, width);
  }

  /** Every letter is at its own column, and every other cell before the end is a dot. */
  ghost predicate Inked(marks: seq<Mark>, ink: string, dot: char) {
    && |ink| == Pos(marks)
    && (forall j :: 0 <= j < |marks| ==> marks[j].col < |ink| && ink[marks[j].col] == marks[j].letter)
    && (forall c :: 0 <= c < |ink| ==> ink[c] == dot || HasColumn(marks, c))
  }

  lemma InkMore(marks: seq<Mark>, front: seq<Mark>, last: Mark, ink: string, dot: char)
    requires marks != [] && front == marks[..|marks| - 1] && last == marks[|marks| - 1]
    requires Inked(front, ink, dot) && Pos(front) <= last.col
    ensures Inked(marks, ink + Dots(dot, last.col - Pos(front)) + [last.letter], dot)
  {
    var all := ink + Dots(dot, last.col - Pos(front)) + [last.letter];
    DotsLength(dot, last.col - Pos(front));
    forall c | 0 <= c < |all|
      ensures all[c] == dot || HasColumn(marks, c)
    {
      if HasColumn(front, c) {
        var j :| 0 <= j < |front| && front[j].col == c;
        assert marks[j].col == c;
      }
      assert marks[|front|].col == last.col;
    }
  }

  lemma FrontInOrder(marks: seq<Mark>, width: nat)
    requires marks != [] && InOrder(marks, width) && Distinct(marks)
    ensures InOrder(marks[..|marks| - 1], width) && Distinct(marks[..|marks| - 1])
    ensures Pos(marks[..|marks| - 1]) <= marks[|marks| - 1].col
  {
    var n := |marks| - 1;
    assert n > 0 ==> marks[n - 1].col != marks[n].col;
  }

  /** So it is with distinct columns. */
  lemma {:induction false} InkPlaces(marks: seq<Mark>, width: nat, dot: char)
    requires InOrder(marks, width) && Distinct(marks)
    ensures Inked(marks, Ink(marks, dot), dot)
  {
    if marks != [] {
      var front, last := marks[..|marks| - 1], marks[|marks| - 1];
      FrontInOrder(marks, width);
      InkPlaces(front, width, dot);
      InkMore(marks, front, last, Ink(front, dot), dot);
    }
  }

  ghost predicate HasColumn(marks: seq<Mark>, c: nat) {
    exists j :: 0 <= j < |marks| && marks[j].col == c
  }

  lemma CellsPlace(marks: seq<Mark>, width: nat, dot: char)
    requires InOrder(marks, width) && Distinct(marks)
    ensures |Cells(marks, width, dot)| == width
    ensures forall j :: 0 <= j < |marks| ==> Cells(marks, width, dot)[marks[j].col] == marks[j].letter
    ensures forall c :: 0 <= c < width ==> Cells(marks, width, dot)[c] == dot || HasColumn(marks, c)
  {
    CellsLength(marks, width, dot);
    InkPlaces(marks, width, dot);
    DotsLength(dot, width - Pos(marks));
  }

  // ----- The events of a row

  datatype Event = Event(offset: nat, stage: nat)

  /** Where the stage's name comes in the alphabet, which decides between equal offsets. */
  const RANK := [3, 1, 5, 2, 4, 0, 6, 7]

  function Rank(s: nat): nat {
    if s < 8 then RANK[s] else s
  }

  predicate Before(a: Event, b: Event) {
    a.offset < b.offset || (a.offset == b.offset && Rank(a.stage) <= Rank(b.stage))
  }

  function Events(g: Grid, ticks: seq<nat>, i: nat, k: nat): seq<Event>
    requires ticks != [] && g.row > 0 && k <= |ticks|
  {
    if k == 0 then []
    else Events(g, ticks, i, k - 1)
         + if InRow(g, ticks, i, ticks[k - 1]) then [Event(ticks[k - 1] % g.row, k - 1)] else []
  }

  function Insert(s: seq<Event>, e: Event): seq<Event> {
    if s == [] || Before(s[|s| - 1], e) then s + [e] else Insert(s[..|s| - 1], e) + [s[|s| - 1]]
  }

  function Sort(s: seq<Event>): seq<Event> {
    if s == [] then [] else Insert(Sort(s[..|s| - 1]), s[|s| - 1])
  }

  ghost predicate Ascending(s: seq<Event>) {
    forall j, k :: 0 <= j < k < |s| ==> Before(s[j], s[k])
  }

  lemma {:induction false} InsertAscends(s: seq<Event>, e: Event)
    requires Ascending(s)
    ensures Ascending(Insert(s, e)) && forall x :: x in Insert(s, e) <==> x in s || x == e
  {
    if !(s == [] || Before(s[|s| - 1], e)) {
      var front, last := s[..|s| - 1], s[|s| - 1];
      InsertAscends(front, e);
      assert s == front + [last];
      var r := Insert(front, e);
      forall j | 0 <= j < |r|
        ensures Before(r[j], last)
      {
        assert r[j] in r;
      }
    }
  }

  lemma {:induction false} SortAscends(s: seq<Event>)
    ensures Ascending(Sort(s)) && forall x :: x in Sort(s) <==> x in s
  {
    if s != [] {
      SortAscends(s[..|s| - 1]);
      InsertAscends(Sort(s[..|s| - 1]), s[|s| - 1]);
      assert s == s[..|s| - 1] + [s[|s| - 1]];
    }
  }

  /** Dispatch is not drawn when issue happens at the same tick. */
  predicate Drawn(ticks: seq<nat>, s: nat)
    requires 7 <= |ticks|
  {
    !(s == DISPATCH && ticks[DISPATCH] == ticks[ISSUE])
  }

  function MarkOf(g: Grid, e: Event): Mark
    requires g.cycle > 0
  {
    Mark(e.offset / g.cycle, if e.stage < 8 then LETTERS[e.stage] else ' ')
  }

  function Marks(g: Grid, ticks: seq<nat>, events: seq<Event>): seq<Mark>
    requires g.cycle > 0 && 7 <= |ticks|
  {
    if events == [] then []
    else
      var e := events[|events| - 1];
      Marks(g, ticks, events[..|events| - 1]) + if Drawn(ticks, e.stage) then [MarkOf(g, e)] else []
  }

  lemma {:induction false} MarksAre(g: Grid, ticks: seq<nat>, events: seq<Event>, m: Mark)
    requires g.cycle > 0 && 7 <= |ticks|
    ensures m in Marks(g, ticks, events) <==> exists e :: e in events && Drawn(ticks, e.stage) && MarkOf(g, e) == m
  {
    if events != [] {
      var front, last := events[..|events| - 1], events[|events| - 1];
      MarksAre(g, ticks, front, m);
      assert events == front + [last];
    }
  }

  lemma ColumnMono(g: Grid, a: nat, b: nat)
    requires g.Valid() && a <= b < g.row
    ensures a / g.cycle <= b / g.cycle < g.width
  {
    QuotientMono(a, b, g.cycle);
    QuotientIs(b, g.cycle, b / g.cycle);
    MulMono(g.width, b / g.cycle, g.cycle);
  }

  lemma {:induction false} MarksInOrder(g: Grid, ticks: seq<nat>, events: seq<Event>)
    requires g.Valid() && 7 <= |ticks| && Ascending(events)
    requires forall e :: e in events ==> e.offset < g.row
    ensures InOrder(Marks(g, ticks, events), g.width)
  {
    if events != [] {
      var front, last := events[..|events| - 1], events[|events| - 1];
      assert last in events;
      MarksInOrder(g, ticks, front);
      ColumnMono(g, last.offset, last.offset);
      var marks := Marks(g, ticks, front);
      forall j | 0 <= j < |marks|
        ensures marks[j].col <= last.offset / g.cycle
      {
        MarksAre(g, ticks, front, marks[j]);
        var e :| e in front && Drawn(ticks, e.stage) && MarkOf(g, e) == marks[j];
        assert e in events;
        ColumnMono(g, e.offset, last.offset);
      }
    }
  }

  lemma {:induction false} EventsAre(g: Grid, ticks: seq<nat>, i: nat, k: nat, e: Event)
    requires ticks != [] && g.row > 0 && k <= |ticks|
    ensures e in Events(g, ticks, i, k) <==>
      e.stage < k && InRow(g, ticks, i, ticks[e.stage]) && e.offset == ticks[e.stage] % g.row
  {
    if k > 0 {
      EventsAre(g, ticks, i, k - 1, e);
    }
  }

  function RowMarks(g: Grid, ticks: seq<nat>, i: nat): seq<Mark>
    requires 7 <= |ticks| && g.row > 0 && g.cycle > 0
  {
    Marks(g, ticks, Sort(Events(g, ticks, i, |ticks|)))
  }

  function Dot(ticks: seq<nat>): char
    requires 7 <= |ticks|
  {
    if ticks[RETIRE] == 0 then '=' else '.'
  }

  lemma RowInOrder(g: Grid, ticks: seq<nat>, i: nat)
    requires g.Valid() && g.row > 0 && 7 <= |ticks|
    ensures InOrder(RowMarks(g, ticks, i), g.width)
  {
    var events := Events(g, ticks, i, |ticks|);
    SortAscends(events);
    forall e | e in Sort(events)
      ensures e.offset < g.row
    {
      EventsAre(g, ticks, i, |ticks|, e);
    }
    MarksInOrder(g, ticks, Sort(events));
  }

  /** The column of a tick: the cycles from the last row boundary before it. */
  function Column(g: Grid, t: nat): nat
    requires g.row > 0 && g.cycle > 0
  {
    t % g.row / g.cycle
  }

  lemma EventIsMarked(g: Grid, ticks: seq<nat>, events: seq<Event>, e: Event)
    requires g.cycle > 0 && 7 <= |ticks| && e in events && Drawn(ticks, e.stage)
    ensures MarkOf(g, e) in Marks(g, ticks, events)
  {
    MarksAre(g, ticks, events, MarkOf(g, e));
  }

  lemma StageIsSorted(g: Grid, ticks: seq<nat>, i: nat, e: Event, events: seq<Event>)
    requires g.row > 0 && ticks != [] && e.stage < |ticks| && e.offset == ticks[e.stage] % g.row
    requires InRow(g, ticks, i, ticks[e.stage]) && events == Events(g, ticks, i, |ticks|)
    ensures e in Sort(events)
  {
    EventsAre(g, ticks, i, |ticks|, e);
    SortAscends(events);
  }

  /** The mark of a stage in the row its tick falls in. */
  lemma StageIsMarked(g: Grid, ticks: seq<nat>, i: nat, s: nat)
    requires g.Valid() && g.row > 0 && 7 <= |ticks| <= 8 && s < |ticks| && Drawn(ticks, s)
    requires InRow(g, ticks, i, ticks[s])
    ensures Mark(Column(g, ticks[s]), LETTERS[s]) in RowMarks(g, ticks, i)
  {
    var e, events := Event(ticks[s] % g.row, s), Events(g, ticks, i, |ticks|);
    StageIsSorted(g, ticks, i, e, events);
    EventIsMarked(g, ticks, Sort(events), e);
  }

  ghost predicate Shows(cells: string, m: Mark) {
    m.col < |cells| && cells[m.col] == m.letter
  }

  lemma MarksShow(marks: seq<Mark>, width: nat, dot: char, m: Mark)
    requires InOrder(marks, width) && Distinct(marks) && m in marks
    ensures Shows(Cells(marks, width, dot), m)
  {
    CellsPlace(marks, width, dot);
  }

  /** The text of a row between the brackets. */
  function RowText(g: Grid, ticks: seq<nat>, i: nat): string
    requires 7 <= |ticks| && g.row > 0 && g.cycle > 0
  {
    Cells(RowMarks(g, ticks, i), g.width, Dot(ticks))
  }

  // ----- When a row fits

  /** Stage `s` is drawn in row `i`. */
  predicate DrawnIn(g: Grid, ticks: seq<nat>, i: nat, s: nat)
    requires 7 <= |ticks| && g.row > 0
  {
    s < |ticks| && Drawn(ticks, s) && InRow(g, ticks, i, ticks[s])
  }

  /** No two stages drawn in row `i` share a column. */
  ghost predicate ColumnsDiffer(g: Grid, ticks: seq<nat>, i: nat)
    requires 7 <= |ticks| && g.row > 0 && g.cycle > 0
  {
    forall s: nat, s': nat :: s < s' && DrawnIn(g, ticks, i, s) && DrawnIn(g, ticks, i, s') ==>
      Column(g, ticks[s]) != Column(g, ticks[s'])
  }

  ghost predicate OneEach(events: seq<Event>) {
    forall j, k :: 0 <= j < k < |events| ==> events[j].stage != events[k].stage
  }

  ghost predicate EventsDiffer(g: Grid, ticks: seq<nat>, events: seq<Event>)
    requires g.cycle > 0 && 7 <= |ticks|
  {
    forall j, k :: 0 <= j < k < |events| && Drawn(ticks, events[j].stage) && Drawn(ticks, events[k].stage) ==>
      events[j].offset / g.cycle != events[k].offset / g.cycle
  }

  lemma {:induction false} InsertOneEach(s: seq<Event>, e: Event)
    requires OneEach(s) && forall x :: x in s ==> x.stage != e.stage
    ensures OneEach(Insert(s, e)) && forall x :: x in Insert(s, e) ==> x in s || x == e
  {
    if !(s == [] || Before(s[|s| - 1], e)) {
      var front, last := s[..|s| - 1], s[|s| - 1];
      InsertOneEach(front, e);
      var r := Insert(front, e);
      forall j | 0 <= j < |r|
        ensures r[j].stage != last.stage
      {
        assert r[j] in r;
        assert r[j] in front ==> r[j].stage != last.stage;
      }
    }
  }

  lemma {:induction false} SortOneEach(s: seq<Event>)
    requires OneEach(s)
    ensures OneEach(Sort(s))
  {
    if s != [] {
      var front := s[..|s| - 1];
      SortOneEach(front);
      SortAscends(front);
      InsertOneEach(Sort(front), s[|s| - 1]);
    }
  }

  lemma {:induction false} EventsOneEach(g: Grid, ticks: seq<nat>, i: nat, k: nat)
    requires ticks != [] && g.row > 0 && k <= |ticks|
    ensures OneEach(Events(g, ticks, i, k)) && forall e :: e in Events(g, ticks, i, k) ==> e.stage < k
  {
    if k > 0 {
      EventsOneEach(g, ticks, i, k - 1);
    }
  }

  lemma {:induction false} DistinctIffEventsDiffer(g: Grid, ticks: seq<nat>, events: seq<Event>)
    requires g.cycle > 0 && 7 <= |ticks|
    ensures Distinct(Marks(g, ticks, events)) <==> EventsDiffer(g, ticks, events)
  {
    if events != [] {
      var front, last := events[..|events| - 1], events[|events| - 1];
      DistinctIffEventsDiffer(g, ticks, front);
      if Drawn(ticks, last.stage) {
        LastIsNew(g, ticks, front, last.offset / g.cycle);
        DistinctOne(Marks(g, ticks, front), MarkOf(g, last));
      } else {
        assert Marks(g, ticks, events) == Marks(g, ticks, front);
      }
      DifferOne(g, ticks, front, last);
      assert events == front + [last];
    }
  }

  lemma DistinctOne(marks: seq<Mark>, m: Mark)
    ensures Distinct(marks + [m]) <==> Distinct(marks) && !HasColumn(marks, m.col)
  {
    var all := marks + [m];
    assert all[|marks|] == m && forall j :: 0 <= j < |marks| ==> all[j] == marks[j];
    if Distinct(all) {
      forall j, k | 0 <= j < k < |marks|
        ensures marks[j].col != marks[k].col
      {
        assert all[j].col != all[k].col;
      }
    }
  }

  /** Some drawn event is in column `c`. */
  ghost predicate DrawnAt(g: Grid, ticks: seq<nat>, events: seq<Event>, c: nat)
    requires g.cycle > 0 && 7 <= |ticks|
  {
    exists j :: 0 <= j < |events| && Drawn(ticks, events[j].stage) && events[j].offset / g.cycle == c
  }

  lemma LastIsNew(g: Grid, ticks: seq<nat>, events: seq<Event>, c: nat)
    requires g.cycle > 0 && 7 <= |ticks|
    ensures HasColumn(Marks(g, ticks, events), c) <==> DrawnAt(g, ticks, events, c)
  {
    var marks := Marks(g, ticks, events);
    if HasColumn(marks, c) {
      var j :| 0 <= j < |marks| && marks[j].col == c;
      MarksAre(g, ticks, events, marks[j]);
      var e :| e in events && Drawn(ticks, e.stage) && MarkOf(g, e) == marks[j];
      var k :| 0 <= k < |events| && events[k] == e;
      assert events[k].offset / g.cycle == c;
    }
    if DrawnAt(g, ticks, events, c) {
      var k :| 0 <= k < |events| && Drawn(ticks, events[k].stage) && events[k].offset / g.cycle == c;
      EventIsMarked(g, ticks, events, events[k]);
      var j :| 0 <= j < |marks| && marks[j] == MarkOf(g, events[k]);
      assert marks[j].col == c;
    }
  }

  lemma DifferOne(g: Grid, ticks: seq<nat>, events: seq<Event>, e: Event)
    requires g.cycle > 0 && 7 <= |ticks|
    ensures EventsDiffer(g, ticks, events + [e]) <==>
      EventsDiffer(g, ticks, events) && (Drawn(ticks, e.stage) ==> !DrawnAt(g, ticks, events, e.offset / g.cycle))
  {
    var all := events + [e];
    assert all[|events|] == e && forall j :: 0 <= j < |events| ==> all[j] == events[j];
    if EventsDiffer(g, ticks, all) {
      forall j, k | 0 <= j < k < |events| && Drawn(ticks, events[j].stage) && Drawn(ticks, events[k].stage)
        ensures events[j].offset / g.cycle != events[k].offset / g.cycle
      {
        assert all[j].offset / g.cycle != all[k].offset / g.cycle;
      }
    }
  }

  lemma SortedEvents(g: Grid, ticks: seq<nat>, i: nat, events: seq<Event>)
    requires 7 <= |ticks| && g.row > 0 && events == Sort(Events(g, ticks, i, |ticks|))
    ensures OneEach(events)
    ensures forall e :: e in events <==>
      e.stage < |ticks| && InRow(g, ticks, i, ticks[e.stage]) && e.offset == ticks[e.stage] % g.row
  {
    var all := Events(g, ticks, i, |ticks|);
    EventsOneEach(g, ticks, i, |ticks|);
    SortOneEach(all);
    SortAscends(all);
    forall e
      ensures e in all <==> e.stage < |ticks| && InRow(g, ticks, i, ticks[e.stage]) && e.offset == ticks[e.stage] % g.row
    {
      EventsAre(g, ticks, i, |ticks|, e);
    }
  }

  lemma EventsDifferIffColumns(g: Grid, ticks: seq<nat>, i: nat, events: seq<Event>)
    requires 7 <= |ticks| && g.row > 0 && g.cycle > 0 && OneEach(events)
    requires forall e :: e in events <==>
      e.stage < |ticks| && InRow(g, ticks, i, ticks[e.stage]) && e.offset == ticks[e.stage] % g.row
    ensures EventsDiffer(g, ticks, events) <==> ColumnsDiffer(g, ticks, i)
  {
    if EventsDiffer(g, ticks, events) {
      forall s: nat, s': nat | s < s' && DrawnIn(g, ticks, i, s) && DrawnIn(g, ticks, i, s')
        ensures Column(g, ticks[s]) != Column(g, ticks[s'])
      {
        assert Event(ticks[s] % g.row, s) in events && Event(ticks[s'] % g.row, s') in events;
        var j :| 0 <= j < |events| && events[j] == Event(ticks[s] % g.row, s);
        var k :| 0 <= k < |events| && events[k] == Event(ticks[s'] % g.row, s');
        assert j < k ==> events[j].offset / g.cycle != events[k].offset / g.cycle;
        assert k < j ==> events[k].offset / g.cycle != events[j].offset / g.cycle;
      }
    }
    if ColumnsDiffer(g, ticks, i) {
      forall j, k | 0 <= j < k < |events| && Drawn(ticks, events[j].stage) && Drawn(ticks, events[k].stage)
        ensures events[j].offset / g.cycle != events[k].offset / g.cycle
      {
        var a, b := events[j], events[k];
        assert a in events && b in events;
        assert a.stage != b.stage;
        assert DrawnIn(g, ticks, i, a.stage) && DrawnIn(g, ticks, i, b.stage);
      }
    }
  }

  lemma DistinctIffColumnsDiffer(g: Grid, ticks: seq<nat>, i: nat)
    requires 7 <= |ticks| && g.row > 0 && g.cycle > 0
    ensures Distinct(RowMarks(g, ticks, i)) <==> ColumnsDiffer(g, ticks, i)
  {
    var events := Sort(Events(g, ticks, i, |ticks|));
    SortedEvents(g, ticks, i, events);
    DistinctIffEventsDiffer(g, ticks, events);
    EventsDifferIffColumns(g, ticks, i, events);
  }

  /** A row has `width` cells exactly when no two stages drawn in it share a column; otherwise it has more. */
  lemma RowLength(g: Grid, ticks: seq<nat>, i: nat)
    requires g.Valid() && g.row > 0 && Reached(ticks)
    ensures |RowText(g, ticks, i)| >= g.width
    ensures |RowText(g, ticks, i)| == g.width <==> ColumnsDiffer(g, ticks, i)
  {
    RowInOrder(g, ticks, i);
    CellsLength(RowMarks(g, ticks, i), g.width, Dot(ticks));
    DistinctIffColumnsDiffer(g, ticks, i);
  }

  /** Then every stage drawn in the row has its letter at its column. */
  lemma RowShowsStage(g: Grid, ticks: seq<nat>, i: nat, s: nat)
    requires g.Valid() && g.row > 0 && Reached(ticks) && ColumnsDiffer(g, ticks, i) && DrawnIn(g, ticks, i, s)
    ensures Shows(RowText(g, ticks, i), Mark(Column(g, ticks[s]), LETTERS[s]))
  {
    RowInOrder(g, ticks, i);
    StageIsMarked(g, ticks, i, s);
    DistinctIffColumnsDiffer(g, ticks, i);
    MarksShow(RowMarks(g, ticks, i), g.width, Dot(ticks), Mark(Column(g, ticks[s]), LETTERS[s]));
  }

  // ----- Columns and cycles

  /** No two stages drawn in row `i` are in the same cycle. */
  ghost predicate CyclesDiffer(g: Grid, ticks: seq<nat>, i: nat)
    requires 7 <= |ticks| && g.row > 0 && g.cycle > 0
  {
    forall s: nat, s': nat :: s < s' && DrawnIn(g, ticks, i, s) && DrawnIn(g, ticks, i, s') ==>
      ticks[s] / g.cycle != ticks[s'] / g.cycle
  }

  lemma MulSplit(q: nat, w: nat, c: nat, m: nat)
    ensures (q * w + m) * c == q * (w * c) + m * c
  {
    assert (q * w + m) * c == (q * w) * c + m * c;
    assert (q * w) * c == q * (w * c);
  }

  /** The column of a tick is its cycle, modulo the width. */
  lemma ColumnIsCycle(g: Grid, t: nat)
    requires g.Valid() && g.row > 0
    ensures t / g.cycle == t / g.row * g.width + Column(g, t) && Column(g, t) < g.width
  {
    ColumnMono(g, t % g.row, t % g.row);
    NestedQuotient(t, g.width, g.cycle, g.row);
  }

  lemma NestedQuotient(t: nat, w: nat, c: nat, row: nat)
    requires w > 0 && c > 0 && row == w * c && row > 0
    ensures t / c == t / row * w + t % row / c
  {
    var q, r := t / row, t % row;
    var m, x := r / c, r % c;
    assert t == q * row + r;
    assert r == m * c + x;
    MulSplit(q, w, c, m);
    QuotientUnique(t, q * w + m, x, c);
  }

  /** Two ticks of the same window of `width` cycles share a column exactly if they share the cycle. */
  lemma SameColumn(g: Grid, first: nat, t: nat, u: nat)
    requires g.Valid() && g.row > 0
    requires first <= t / g.cycle < first + g.width && first <= u / g.cycle < first + g.width
    ensures Column(g, t) == Column(g, u) <==> t / g.cycle == u / g.cycle
  {
    ColumnIsCycle(g, t);
    ColumnIsCycle(g, u);
    SameResidue(t / g.row, Column(g, t), u / g.row, Column(g, u), g.width);
  }

  lemma SameResidue(a: nat, x: nat, b: nat, y: nat, w: nat)
    requires x < w && y < w && a * w + x < b * w + y + w && b * w + y < a * w + x + w
    ensures x == y <==> a * w + x == b * w + y
  {
    MulMono(a + 1, b, w);
    MulMono(b + 1, a, w);
    assert (a + 1) * w == a * w + w && (b + 1) * w == b * w + w;
  }

  /** The first cycle of the window in which all ticks of the row lie. */
  function Window(g: Grid, ticks: seq<nat>, i: nat): nat
    requires ticks != [] && g.row > 0 && g.cycle > 0
  {
    if Lines(g, ticks) == 1 then ticks[0] / g.cycle else Begin(g, ticks, i) / g.cycle
  }

  lemma AlignedWindow(g: Grid, a: nat, t: nat)
    requires g.Valid() && a % g.cycle == 0 && a <= t < a + g.row
    ensures a / g.cycle <= t / g.cycle < a / g.cycle + g.width
  {
    var q := a / g.cycle;
    assert a == q * g.cycle;
    QuotientMono(a, t, g.cycle);
    assert t / g.cycle * g.cycle <= t;
    MulMono(q + g.width, t / g.cycle, g.cycle);
    assert (q + g.width) * g.cycle == q * g.cycle + g.row;
  }

  lemma BeginIsAligned(g: Grid, ticks: seq<nat>, i: nat)
    requires g.Valid() && g.row > 0 && ticks != []
    ensures Begin(g, ticks, i) % g.cycle == 0
  {
    var q := ticks[0] / g.row + i;
    assert Begin(g, ticks, i) == q * g.row;
    MulSplit(q, g.width, g.cycle, 0);
    QuotientUnique(q * g.row, q * g.width, 0, g.cycle);
  }

  lemma TickInWindow(g: Grid, ticks: seq<nat>, i: nat, s: nat)
    requires g.Valid() && g.row > 0 && Reached(ticks) && DrawnIn(g, ticks, i, s)
    requires i < Lines(g, ticks) && (Lines(g, ticks) != 1 || ticks[0] % g.cycle == 0)
    ensures Window(g, ticks, i) <= ticks[s] / g.cycle < Window(g, ticks, i) + g.width
  {
    if Lines(g, ticks) == 1 {
      BaseIs(g, ticks);
      AlignedWindow(g, ticks[0], ticks[s]);
    } else {
      BeginIsAligned(g, ticks, i);
      AlignedWindow(g, Begin(g, ticks, i), ticks[s]);
    }
  }

  /**
   In the form of several rows, and in the compact form if the fetch is at the start of a cycle,
   columns differ exactly if cycles do.
   */
  lemma ColumnsDifferIffCycles(g: Grid, ticks: seq<nat>, i: nat)
    requires g.Valid() && g.row > 0 && Reached(ticks) && i < Lines(g, ticks)
    requires Lines(g, ticks) != 1 || ticks[0] % g.cycle == 0
    ensures ColumnsDiffer(g, ticks, i) <==> CyclesDiffer(g, ticks, i)
  {
    forall s: nat, s': nat | DrawnIn(g, ticks, i, s) && DrawnIn(g, ticks, i, s')
      ensures Column(g, ticks[s]) == Column(g, ticks[s']) <==> ticks[s] / g.cycle == ticks[s'] / g.cycle
    {
      TickInWindow(g, ticks, i, s);
      TickInWindow(g, ticks, i, s');
      SameColumn(g, Window(g, ticks, i), ticks[s], ticks[s']);
    }
  }

  /** A fetch inside a cycle: two stages two cycles apart meet in a compact row of width two. */
  lemma UnalignedOverflows(g: Grid, ticks: seq<nat>)
    requires g == Grid(2, 10, 20) && ticks == [5, 0, 0, 0, 0, 0, 22]
    ensures g.Valid() && Reached(ticks) && Lines(g, ticks) == 1 && CyclesDiffer(g, ticks, 0)
    ensures |RowText(g, ticks, 0)| > g.width
  {
    LatestIs(ticks, 22);
    assert Base(g, ticks) == 0;
    UnalignedRow(g, ticks);
    RowLength(g, ticks, 0);
  }

  lemma UnalignedRow(g: Grid, ticks: seq<nat>)
    requires g == Grid(2, 10, 20) && ticks == [5, 0, 0, 0, 0, 0, 22] && Latest(ticks) == 22
    ensures CyclesDiffer(g, ticks, 0) && !ColumnsDiffer(g, ticks, 0)
  {
    assert Lines(g, ticks) == 1 && Begin(g, ticks, 0) == 0 && End(g, ticks, 0) == 25;
    assert DrawnIn(g, ticks, 0, 0) && DrawnIn(g, ticks, 0, 6);
    assert Column(g, ticks[0]) == Column(g, ticks[6]);
  }

  lemma {:induction false} LatestIs(ticks: seq<nat>, m: nat)
    requires m in ticks && forall s :: 0 <= s < |ticks| ==> ticks[s] <= m
    ensures Latest(ticks) == m
  {
    if |ticks| > 1 {
      var front := ticks[..|ticks| - 1];
      if m in front {
        LatestIs(front, m);
      } else {
        assert ticks == front + [ticks[|ticks| - 1]];
        LatestBelow(front, m);
      }
    }
  }

  lemma {:induction false} LatestBelow(ticks: seq<nat>, m: nat)
    requires ticks != [] && forall s :: 0 <= s < |ticks| ==> ticks[s] <= m
    ensures Latest(ticks) <= m
  {
    if |ticks| > 1 {
      LatestBelow(ticks[..|ticks| - 1], m);
    }
  }

  // ----- Printing

  lemma InkOne(marks: seq<Mark>, m: Mark, dot: char)
    ensures Ink(marks + [m], dot) == Ink(marks, dot) + Dots(dot, m.col - Pos(marks)) + [m.letter]
    ensures Pos(marks + [m]) == m.col + 1
  {
    assert (marks + [m])[..|marks|] == marks;
  }

  lemma MarksOne(g: Grid, ticks: seq<nat>, events: seq<Event>, j: nat)
    requires g.cycle > 0 && 7 <= |ticks| && j < |events|
    ensures Marks(g, ticks, events[..j + 1])
         == Marks(g, ticks, events[..j]) + if Drawn(ticks, events[j].stage) then [MarkOf(g, events[j])] else []
  {
    assert events[..j + 1][..j] == events[..j];
  }

  method DrawEvents(g: Grid, ticks: seq<nat>, events: seq<Event>, dot: char) returns (row: string)
    requires g.cycle > 0 && 7 <= |ticks|
    ensures row == Cells(Marks(g, ticks, events), g.width, dot)
  {
    row := "";
    var pos := 0;
    ghost var marks := [];
    for j := 0 to |events|
      invariant marks == Marks(g, ticks, events[..j]) && row == Ink(marks, dot) && pos == Pos(marks)
    {
      var e := events[j];
      MarksOne(g, ticks, events, j);
      if Drawn(ticks, e.stage) {
        var m := MarkOf(g, e);
        InkOne(marks, m, dot);
        row := row + Dots(dot, m.col - pos) + [m.letter];
        pos := m.col + 1;
        marks := marks + [m];
      }
    }
    assert events[..|events|] == events;
    row := row + Dots(dot, g.width - pos);
  }

  method PrintRow(g: Grid, ticks: seq<nat>, i: nat, dot: char) returns (row: string)
    requires g.row > 0 && g.cycle > 0 && 7 <= |ticks|
    ensures row == Cells(RowMarks(g, ticks, i), g.width, dot)
  {
    var events := [];
    for s := 0 to |ticks|
      invariant events == Events(g, ticks, i, s)
    {
      if InRow(g, ticks, i, ticks[s]) {
        events := events + [Event(ticks[s] % g.row, s)];
      }
    }
    row := DrawEvents(g, ticks, Sort(events), dot);
  }

  lemma LinesPositive(g: Grid, ticks: seq<nat>)
    requires g.row > 0 && Reached(ticks)
    ensures Lines(g, ticks) >= 1
  {
    BaseIs(g, ticks);
    QuotientMono(0, Latest(ticks) - Base(g, ticks), g.row);
  }

  // ----- The rows in terms of the ticks alone

  /** How many rows: one for less than a row of time, otherwise up to the row of the latest tick. */
  ghost predicate CountIs(g: Grid, ticks: seq<nat>, n: nat)
    requires g.row > 0 && ticks != []
  {
    && n >= 1
    && (n == 1 <==> forall s :: 0 <= s < |ticks| ==> ticks[s] < ticks[0] + g.row)
    && (n > 1 ==> exists s :: 0 <= s < |ticks| && ticks[s] != 0 && ticks[s] / g.row - ticks[0] / g.row == n - 1)
    && (n > 1 ==> forall s :: 0 <= s < |ticks| && ticks[s] != 0 ==> 0 <= ticks[s] / g.row - ticks[0] / g.row < n)
  }

  /** Stage `s` belongs in row `i` of `n`; dispatch (3) is left out when it coincides with issue (4). */
  predicate Belongs(g: Grid, ticks: seq<nat>, n: nat, i: nat, s: nat)
    requires g.row > 0 && 7 <= |ticks|
  {
    && s < |ticks| && ticks[s] != 0 && !(s == 3 && ticks[3] == ticks[4])
    && (n == 1 || ticks[s] / g.row - ticks[0] / g.row == i)
  }

  /**
   A row is as wide as it should be exactly if its stages are in different columns; then it has
   the letter of each stage at the column of its tick, and elsewhere dots, or equals signs for an
   instruction that did not retire (6).
   */
  ghost predicate RowIs(g: Grid, ticks: seq<nat>, n: nat, i: nat, row: string)
    requires g.row > 0 && g.cycle > 0 && 7 <= |ticks| <= 8
  {
    && |row| >= g.width
    && (|row| == g.width <==>
          forall s: nat, s': nat :: s < s' && Belongs(g, ticks, n, i, s) && Belongs(g, ticks, n, i, s') ==>
            Column(g, ticks[s]) != Column(g, ticks[s']))
    && (|row| == g.width ==>
          && (forall s: nat :: Belongs(g, ticks, n, i, s) ==>
                Column(g, ticks[s]) < g.width && row[Column(g, ticks[s])] == "fdnpicrs"[s])
          && (forall c: nat :: c < g.width && (forall s: nat :: Belongs(g, ticks, n, i, s) ==> Column(g, ticks[s]) != c) ==>
                row[c] == if ticks[6] == 0 then '=' else '.'))
  }

  lemma RowNumber(g: Grid, ticks: seq<nat>, t: nat)
    requires g.row > 0 && ticks != [] && t >= ticks[0]
    ensures t >= Base(g, ticks) && (t - Base(g, ticks)) / g.row == t / g.row - ticks[0] / g.row >= 0
  {
    BaseIs(g, ticks);
    QuotientMono(ticks[0], t, g.row);
    QuotientLess(t, ticks[0] / g.row, g.row);
  }

  lemma QuotientLess(t: nat, p: nat, w: nat)
    requires w > 0 && p <= t / w
    ensures t - p * w >= 0 && (t - p * w) / w == t / w - p
  {
    var q := t / w;
    assert t == q * w + t % w;
    assert (q - p) * w == q * w - p * w;
    MulMono(p, q, w);
    QuotientUnique(t - p * w, q - p, t % w, w);
  }

  lemma DrawnIsBelongs(g: Grid, ticks: seq<nat>, i: nat, s: nat)
    requires g.Valid() && g.row > 0 && Reached(ticks) && i < Lines(g, ticks)
    ensures DrawnIn(g, ticks, i, s) <==> Belongs(g, ticks, Lines(g, ticks), i, s)
  {
    if s < |ticks| && ticks[s] != 0 {
      ExactlyOneRow(g, ticks, s);
      RowNumber(g, ticks, ticks[s]);
    }
  }

  lemma LatestIsOne(ticks: seq<nat>) returns (s: nat)
    requires ticks != []
    ensures s < |ticks| && ticks[s] == Latest(ticks)
  {
    if |ticks| == 1 || Latest(ticks) == ticks[|ticks| - 1] {
      s := |ticks| - 1;
    } else {
      s := LatestIsOne(ticks[..|ticks| - 1]);
    }
  }

  lemma LinesCount(g: Grid, ticks: seq<nat>)
    requires g.Valid() && g.row > 0 && Reached(ticks)
    ensures Lines(g, ticks) >= 1 && CountIs(g, ticks, Lines(g, ticks))
  {
    LinesPositive(g, ticks);
    var last := LatestIsOne(ticks);
    RowNumber(g, ticks, ticks[last]);
    if Latest(ticks) - ticks[0] >= g.row {
      QuotientIs(Latest(ticks) - Base(g, ticks), g.row, 0);
      BaseIs(g, ticks);
    }
    forall s | 0 <= s < |ticks| && ticks[s] != 0
      ensures 0 <= ticks[s] / g.row - ticks[0] / g.row <= ticks[last] / g.row - ticks[0] / g.row
    {
      RowNumber(g, ticks, ticks[s]);
      QuotientMono(ticks[s], ticks[last], g.row);
    }
  }

  lemma MarkIsDrawn(g: Grid, ticks: seq<nat>, i: nat, m: Mark) returns (s: nat)
    requires g.row > 0 && g.cycle > 0 && 7 <= |ticks| && m in RowMarks(g, ticks, i)
    ensures DrawnIn(g, ticks, i, s) && Column(g, ticks[s]) == m.col
  {
    var events := Events(g, ticks, i, |ticks|);
    MarksAre(g, ticks, Sort(events), m);
    var e :| e in Sort(events) && Drawn(ticks, e.stage) && MarkOf(g, e) == m;
    SortAscends(events);
    EventsAre(g, ticks, i, |ticks|, e);
    s := e.stage;
  }

  lemma RowElsewhere(g: Grid, ticks: seq<nat>, i: nat, c: nat)
    requires g.Valid() && g.row > 0 && Reached(ticks) && ColumnsDiffer(g, ticks, i) && c < g.width
    requires forall s: nat :: DrawnIn(g, ticks, i, s) ==> Column(g, ticks[s]) != c
    ensures |RowText(g, ticks, i)| == g.width && RowText(g, ticks, i)[c] == Dot(ticks)
  {
    RowInOrder(g, ticks, i);
    DistinctIffColumnsDiffer(g, ticks, i);
    var marks := RowMarks(g, ticks, i);
    CellsPlace(marks, g.width, Dot(ticks));
    if HasColumn(marks, c) {
      var j :| 0 <= j < |marks| && marks[j].col == c;
      var s := MarkIsDrawn(g, ticks, i, marks[j]);
    }
  }

  lemma RowIsRight(g: Grid, ticks: seq<nat>, i: nat)
    requires g.Valid() && g.row > 0 && Reached(ticks) && i < Lines(g, ticks)
    ensures RowIs(g, ticks, Lines(g, ticks), i, RowText(g, ticks, i))
  {
    var n, row := Lines(g, ticks), RowText(g, ticks, i);
    forall s: nat
      ensures DrawnIn(g, ticks, i, s) <==> Belongs(g, ticks, n, i, s)
    {
      DrawnIsBelongs(g, ticks, i, s);
    }
    RowLength(g, ticks, i);
    if |row| == g.width {
      forall s: nat | Belongs(g, ticks, n, i, s)
        ensures Column(g, ticks[s]) < g.width && row[Column(g, ticks[s])] == "fdnpicrs"[s]
      {
        RowShowsStage(g, ticks, i, s);
        ColumnIsCycle(g, ticks[s]);
      }
      forall c: nat | c < g.width && forall s: nat :: Belongs(g, ticks, n, i, s) ==> Column(g, ticks[s]) != c
        ensures row[c] == if ticks[6] == 0 then '=' else '.'
      {
        RowElsewhere(g, ticks, i, c);
      }
    }
  }

  // ----- The letters of a row, whatever its width

  function StageName(s: nat): string
    requires s < 8
  {
    ["fetch", "decode", "rename", "dispatch", "issue", "complete", "retire", "store"][s]
  }

  lemma RankIsAlphabetical(a: nat, b: nat)
    requires a < 8 && b < 8 && RANK[a] < RANK[b]
    ensures Lexical(StageName(a), StageName(b))
  {
    var x, y := StageName(a), StageName(b);
    if x[0] < y[0] {
      assert x[..0] == y[..0];
    } else if a == 1 {
      assert x == "decode" && y == "dispatch" && x[..1] == y[..1];
    } else {
      assert x == "rename" && y == "retire" && x[..2] == y[..2];
    }
  }

  function Undotted(row: string): string {
    if row == "" then ""
    else
      var last := row[|row| - 1];
      Undotted(row[..|row| - 1]) + if last == '.' || last == '=' then "" else [last]
  }

  function Lettered(order: seq<nat>): string {
    seq(|order|, j requires 0 <= j < |order| => if order[j] < 8 then "fdnpicrs"[order[j]] else ' ')
  }

  /** The stages of the row, each once, by the place of the tick in a row and then by name. */
  ghost predicate StagesOf(g: Grid, ticks: seq<nat>, n: nat, i: nat, order: seq<nat>)
    requires g.row > 0 && 7 <= |ticks| <= 8
  {
    && (forall s: nat :: s in order <==> Belongs(g, ticks, n, i, s))
    && forall j, k :: 0 <= j < k < |order| && order[j] < |ticks| && order[k] < |ticks| ==>
         || ticks[order[j]] % g.row < ticks[order[k]] % g.row
         || (ticks[order[j]] % g.row == ticks[order[k]] % g.row && Lexical(StageName(order[j]), StageName(order[k])))
  }

  /** Without its dots the row spells the letters of its stages in that order. */
  ghost predicate LettersAre(g: Grid, ticks: seq<nat>, n: nat, i: nat, row: string)
    requires g.row > 0 && 7 <= |ticks| <= 8
  {
    exists order :: StagesOf(g, ticks, n, i, order) && Undotted(row) == Lettered(order)
  }

  function DrawnStages(ticks: seq<nat>, events: seq<Event>): seq<nat>
    requires 7 <= |ticks|
  {
    if events == [] then []
    else
      var e := events[|events| - 1];
      DrawnStages(ticks, events[..|events| - 1]) + if Drawn(ticks, e.stage) then [e.stage] else []
  }

  lemma {:induction false} UndottedCat(a: string, b: string)
    ensures Undotted(a + b) == Undotted(a) + Undotted(b)
  {
    if b == "" {
      assert a + b == a;
    } else {
      UndottedCat(a, b[..|b| - 1]);
      assert (a + b)[..|a + b| - 1] == a + b[..|b| - 1];
    }
  }

  lemma {:induction false} UndottedDots(dot: char, n: int)
    requires dot == '.' || dot == '='
    ensures Undotted(Dots(dot, n)) == ""
  {
    if n > 0 {
      UndottedDots(dot, n - 1);
      assert Dots(dot, n)[..|Dots(dot, n)| - 1] == Dots(dot, n - 1);
    }
  }

  lemma LetteredOne(order: seq<nat>, s: nat)
    ensures Lettered(order + [s]) == Lettered(order) + [if s < 8 then "fdnpicrs"[s] else ' ']
  {
  }

  lemma UndottedTail(ink: string, dot: char, n: int)
    requires dot == '.' || dot == '='
    ensures Undotted(ink + Dots(dot, n)) == Undotted(ink)
  {
    UndottedCat(ink, Dots(dot, n));
    UndottedDots(dot, n);
  }

  lemma UndottedMark(ink: string, dot: char, n: int, letter: char)
    requires (dot == '.' || dot == '=') && letter != '.' && letter != '='
    ensures Undotted(ink + Dots(dot, n) + [letter]) == Undotted(ink) + [letter]
  {
    var all := ink + Dots(dot, n);
    UndottedTail(ink, dot, n);
    assert (all + [letter])[..|all|] == all;
  }

  lemma MarkLettersOne(marks: seq<Mark>)
    requires marks != []
    ensures MarkLetters(marks) == MarkLetters(marks[..|marks| - 1]) + [marks[|marks| - 1].letter]
  {
  }

  function MarkLetters(marks: seq<Mark>): string {
    seq(|marks|, j requires 0 <= j < |marks| => marks[j].letter)
  }

  lemma {:induction false} InkLetters(marks: seq<Mark>, dot: char)
    requires (dot == '.' || dot == '=') && forall m :: m in marks ==> m.letter != '.' && m.letter != '='
    ensures Undotted(Ink(marks, dot)) == MarkLetters(marks)
  {
    if marks != [] {
      var front, last := marks[..|marks| - 1], marks[|marks| - 1];
      InkLetters(front, dot);
      UndottedMark(Ink(front, dot), dot, last.col - Pos(front), last.letter);
      MarkLettersOne(marks);
    }
  }

  lemma {:induction false} MarksLettered(g: Grid, ticks: seq<nat>, events: seq<Event>)
    requires g.cycle > 0 && 7 <= |ticks|
    ensures MarkLetters(Marks(g, ticks, events)) == Lettered(DrawnStages(ticks, events))
    ensures forall m :: m in Marks(g, ticks, events) ==> m.letter != '.' && m.letter != '='
  {
    if events != [] {
      var front, e := events[..|events| - 1], events[|events| - 1];
      MarksLettered(g, ticks, front);
      LetteredOne(DrawnStages(ticks, front), e.stage);
      assert Marks(g, ticks, front) + [] == Marks(g, ticks, front);
      assert DrawnStages(ticks, front) + [] == DrawnStages(ticks, front);
    }
  }

  lemma CellsUndotted(marks: seq<Mark>, width: nat, dot: char)
    requires dot == '.' || dot == '='
    ensures Undotted(Cells(marks, width, dot)) == Undotted(Ink(marks, dot))
  {
    var ink := Ink(marks, dot);
    UndottedTail(ink, dot, width - Pos(marks));
  }

  lemma CellsLetters(g: Grid, ticks: seq<nat>, events: seq<Event>, dot: char)
    requires g.cycle > 0 && 7 <= |ticks| && (dot == '.' || dot == '=')
    ensures Undotted(Cells(Marks(g, ticks, events), g.width, dot)) == Lettered(DrawnStages(ticks, events))
  {
    var marks := Marks(g, ticks, events);
    MarksLettered(g, ticks, events);
    InkLetters(marks, dot);
    CellsUndotted(marks, g.width, dot);
  }

  lemma {:induction false} DrawnStagesAre(ticks: seq<nat>, events: seq<Event>, s: nat)
    requires 7 <= |ticks|
    ensures s in DrawnStages(ticks, events) <==> Drawn(ticks, s) && exists e :: e in events && e.stage == s
  {
    if events != [] {
      var front, last := events[..|events| - 1], events[|events| - 1];
      DrawnStagesAre(ticks, front, s);
      assert events == front + [last];
    }
  }

  ghost predicate InSequence(g: Grid, ticks: seq<nat>, order: seq<nat>)
    requires g.row > 0
  {
    forall j, k :: 0 <= j < k < |order| && order[j] < |ticks| && order[k] < |ticks| ==>
      Before(Event(ticks[order[j]] % g.row, order[j]), Event(ticks[order[k]] % g.row, order[k])) && order[j] != order[k]
  }

  lemma {:induction false} DrawnInSequence(g: Grid, ticks: seq<nat>, events: seq<Event>)
    requires g.row > 0 && 7 <= |ticks| && Ascending(events) && OneEach(events)
    requires forall e :: e in events ==> e.stage < |ticks| && e.offset == ticks[e.stage] % g.row
    ensures InSequence(g, ticks, DrawnStages(ticks, events))
  {
    if events != [] {
      var front, last := events[..|events| - 1], events[|events| - 1];
      assert last in events && forall e :: e in front ==> e in events;
      DrawnInSequence(g, ticks, front);
      var order := DrawnStages(ticks, front);
      forall j | 0 <= j < |order|
        ensures order[j] < |ticks| && Before(Event(ticks[order[j]] % g.row, order[j]), last) && order[j] != last.stage
      {
        DrawnStagesAre(ticks, front, order[j]);
        var e :| e in front && e.stage == order[j];
        var k :| 0 <= k < |front| && front[k] == e;
        assert Before(events[k], events[|events| - 1]);
      }
    }
  }

  lemma RowLetters(g: Grid, ticks: seq<nat>, i: nat)
    requires g.Valid() && g.row > 0 && Reached(ticks) && i < Lines(g, ticks)
    ensures LettersAre(g, ticks, Lines(g, ticks), i, RowText(g, ticks, i))
  {
    var events := Sort(Events(g, ticks, i, |ticks|));
    var order := DrawnStages(ticks, events);
    RowInSequence(g, ticks, i, events);
    OrderIsStages(g, ticks, i, events, order);
    CellsLetters(g, ticks, events, Dot(ticks));
    assert StagesOf(g, ticks, Lines(g, ticks), i, order);
  }

  lemma RowInSequence(g: Grid, ticks: seq<nat>, i: nat, events: seq<Event>)
    requires g.row > 0 && 7 <= |ticks| && events == Sort(Events(g, ticks, i, |ticks|))
    ensures InSequence(g, ticks, DrawnStages(ticks, events))
  {
    SortedEvents(g, ticks, i, events);
    SortAscends(Events(g, ticks, i, |ticks|));
    DrawnInSequence(g, ticks, events);
  }

  lemma OrderIsStages(g: Grid, ticks: seq<nat>, i: nat, events: seq<Event>, order: seq<nat>)
    requires g.Valid() && g.row > 0 && Reached(ticks) && i < Lines(g, ticks)
    requires events == Sort(Events(g, ticks, i, |ticks|)) && order == DrawnStages(ticks, events) && InSequence(g, ticks, order)
    ensures StagesOf(g, ticks, Lines(g, ticks), i, order)
  {
    var n := Lines(g, ticks);
    forall s: nat
      ensures s in order <==> Belongs(g, ticks, n, i, s)
    {
      DrawnStagesAre(ticks, events, s);
      DrawnIsBelongs(g, ticks, i, s);
      EventOfStage(g, ticks, i, events, s);
    }
    forall j, k | 0 <= j < k < |order| && order[j] < |ticks| && order[k] < |ticks|
      && ticks[order[j]] % g.row == ticks[order[k]] % g.row
      ensures Lexical(StageName(order[j]), StageName(order[k]))
    {
      RankIsAlphabetical(order[j], order[k]);
    }
  }

  lemma EventOfStage(g: Grid, ticks: seq<nat>, i: nat, events: seq<Event>, s: nat)
    requires g.row > 0 && ticks != [] && events == Sort(Events(g, ticks, i, |ticks|))
    ensures (exists e :: e in events && e.stage == s) <==> s < |ticks| && InRow(g, ticks, i, ticks[s])
  {
    SortAscends(Events(g, ticks, i, |ticks|));
    if e :| e in events && e.stage == s {
      EventsAre(g, ticks, i, |ticks|, e);
    }
    if s < |ticks| {
      EventsAre(g, ticks, i, |ticks|, Event(ticks[s] % g.row, s));
    }
  }

  // ----- Printing an instruction

  function Listed(text: nat -> string, n: nat): (rows: seq<string>)
    ensures |rows| == n
  {
    if n == 0 then [] else Listed(text, n - 1) + [text(n - 1)]
  }

  lemma {:induction false} ListedAt(text: nat -> string, n: nat, i: nat)
    requires i < n
    ensures Listed(text, n)[i] == text(i)
  {
    if i < n - 1 {
      ListedAt(text, n - 1, i);
    }
  }

  function Texts(g: Grid, ticks: seq<nat>): nat -> string
    requires 7 <= |ticks| && g.row > 0 && g.cycle > 0
  {
    (i: nat) => RowText(g, ticks, i)
  }

  /** The rows show the instruction as its ticks say. */
  ghost predicate Depicts(g: Grid, ticks: seq<nat>, rows: seq<string>)
    requires g.row > 0 && g.cycle > 0 && 7 <= |ticks| <= 8
  {
    && CountIs(g, ticks, |rows|)
    && (forall i :: 0 <= i < |rows| ==> RowIs(g, ticks, |rows|, i, rows[i]))
    && (forall i :: 0 <= i < |rows| ==> LettersAre(g, ticks, |rows|, i, rows[i]))
  }

  lemma RowsDepict(g: Grid, ticks: seq<nat>, n: nat)
    requires g.Valid() && g.row > 0 && Reached(ticks) && n == Lines(g, ticks)
    ensures Depicts(g, ticks, Listed(Texts(g, ticks), n))
  {
    LinesCount(g, ticks);
    var rows := Listed(Texts(g, ticks), n);
    forall i | 0 <= i < n
      ensures RowIs(g, ticks, n, i, rows[i]) && LettersAre(g, ticks, n, i, rows[i])
    {
      ListedAt(Texts(g, ticks), n, i);
      RowIsRight(g, ticks, i);
      RowLetters(g, ticks, i);
    }
  }

  method PrintRows(g: Grid, ticks: seq<nat>, lines: nat) returns (rows: seq<string>)
    requires g.row > 0 && g.cycle > 0 && 7 <= |ticks|
    ensures rows == Listed(Texts(g, ticks), lines)
  {
    rows := [];
    for i := 0 to lines
      invariant rows == Listed(Texts(g, ticks), i)
    {
      var row := PrintRow(g, ticks, i, Dot(ticks));
      rows := rows + [row];
    }
  }

  method PrintInst(g: Grid, ticks: seq<nat>) returns (rows: seq<string>)
    requires g.Valid() && Reached(ticks)
    ensures g.row > 0 && Depicts(g, ticks, rows)
  {
    RowPositive(g);
    LinesPositive(g, ticks);
    rows := PrintRows(g, ticks, Lines(g, ticks));
    RowsDepict(g, ticks, Lines(g, ticks));
  }
}
