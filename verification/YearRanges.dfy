/**
 Years of a copyright line: a set is printed as comma-separated years and ranges, one per
 maximal run of consecutive years, and read back by matching `dddd-dddd` or a single number.
 */
module YearRanges {
  import opened Basics
  import opened Text

  // ----- Runs

  datatype Run = Run(first: nat, last: nat)

  ghost predicate Ascending(s: seq<nat>) {
    forall i, j :: 0 <= i < j < |s| ==> s[i] < s[j]
  }

  /** A year either extends the last run or starts one. */
  function AddYear(r: seq<Run>, y: nat): seq<Run> {
    if r != [] && y == r[|r| - 1].last + 1 then r[|r| - 1 := Run(r[|r| - 1].first, y)] else r + [Run(y, y)]
  }

  function Runs(years: seq<nat>): (r: seq<Run>)
    ensures years != [] ==> r != []
  {
    if years == [] then []
    else
      AddYear(Runs(years[..|years| - 1]), years[|years| - 1])
  }

  /** In order, non-empty, and each separated from the one before by a gap. */
  ghost predicate Maximal(r: seq<Run>) {
    && (forall i :: 0 <= i < |r| ==> r[i].first <= r[i].last)
    && (forall i, j :: 0 <= i < j < |r| ==> r[i].last + 1 < r[j].first)
  }

  ghost predicate Covers(r: seq<Run>, y: nat) {
    exists i :: 0 <= i < |r| && r[i].first <= y <= r[i].last
  }

  lemma {:induction false} RunsAreMaximal(years: seq<nat>)
    requires Ascending(years)
    ensures Maximal(Runs(years)) && (years != [] ==> Runs(years)[|Runs(years)| - 1].last == years[|years| - 1])
  {
    if years != [] {
      RunsAreMaximal(years[..|years| - 1]);
    }
  }

  lemma {:induction false} RunsCover(years: seq<nat>, y: nat)
    requires Ascending(years)
    ensures Covers(Runs(years), y) <==> y in years
  {
    if years != [] {
      var front, last := years[..|years| - 1], years[|years| - 1];
      RunsCover(front, y);
      RunsAreMaximal(front);
      CoversOne(Runs(front), last, y);
      assert years == front + [last];
    }
  }

  lemma CoversOne(r: seq<Run>, last: nat, y: nat)
    requires Maximal(r)
    ensures Covers(AddYear(r, last), y) <==> Covers(r, y) || y == last
  {
    var r' := AddYear(r, last);
    var n := |r'| - 1;
    assert r'[n].last == last && r'[n].first <= last;
    if Covers(r, y) {
      var i :| 0 <= i < |r| && r[i].first <= y <= r[i].last;
      assert r'[i].first <= y <= r'[i].last;
    }
    if Covers(r', y) {
      var i :| 0 <= i < |r'| && r'[i].first <= y <= r'[i].last;
      if y != last {
        assert i < |r| && r[i].first <= y <= r[i].last;
      }
    }
  }

  /** Only one list of runs in order and separated by gaps covers a given set. */
  lemma {:induction false} RunsAreUnique(a: seq<Run>, b: seq<Run>)
    requires Maximal(a) && Maximal(b) && forall y :: Covers(a, y) <==> Covers(b, y)
    ensures a == b
  {
    assert a != [] ==> Covers(a, a[0].first);
    assert b != [] ==> Covers(b, b[0].first);
    if a != [] {
      FirstRunsAgree(a, b);
      TailCovers(a, b);
      RunsAreUnique(a[1..], b[1..]);
      assert a == [a[0]] + a[1..] && b == [b[0]] + b[1..];
    }
  }

  /** The first run starts at the least year and ends before the first gap. */
  lemma FirstRun(a: seq<Run>)
    requires Maximal(a) && a != []
    ensures forall y :: a[0].first <= y <= a[0].last ==> Covers(a, y)
    ensures !Covers(a, a[0].last + 1)
    ensures forall y :: Covers(a, y) ==> a[0].first <= y
  {
    forall y: nat | Covers(a, y)
      ensures a[0].first <= y && y != a[0].last + 1
    {
      var i :| 0 <= i < |a| && a[i].first <= y <= a[i].last;
      assert i > 0 ==> a[0].last + 1 < a[i].first;
    }
  }

  lemma FirstRunsAgree(a: seq<Run>, b: seq<Run>)
    requires Maximal(a) && Maximal(b) && a != [] && b != [] && forall y :: Covers(a, y) <==> Covers(b, y)
    ensures a[0] == b[0]
  {
    FirstRun(a);
    FirstRun(b);
    assert Covers(a, a[0].first) && Covers(b, b[0].first);
    assert a[0].first == b[0].first;
  }

  lemma TailCovers(a: seq<Run>, b: seq<Run>)
    requires Maximal(a) && Maximal(b) && a != [] && b != [] && a[0] == b[0] && forall y :: Covers(a, y) <==> Covers(b, y)
    ensures Maximal(a[1..]) && Maximal(b[1..]) && forall y :: Covers(a[1..], y) <==> Covers(b[1..], y)
  {
    forall y
      ensures Covers(a[1..], y) <==> Covers(b[1..], y)
    {
      TailCover(a, y);
      TailCover(b, y);
    }
  }

  lemma TailCover(a: seq<Run>, y: nat)
    requires Maximal(a) && a != []
    ensures Covers(a[1..], y) <==> Covers(a, y) && y > a[0].last
  {
    if Covers(a[1..], y) {
      var i :| 0 <= i < |a[1..]| && a[1..][i].first <= y <= a[1..][i].last;
      assert a[i + 1].first <= y <= a[i + 1].last;
    }
    if Covers(a, y) && y > a[0].last {
      var i :| 0 <= i < |a| && a[i].first <= y <= a[i].last;
      assert a[1..][i - 1].first <= y <= a[1..][i - 1].last;
    }
  }

  // ----- Printing

  function Show(r: Run): string {
    if r.first == r.last then Digits(r.first) else Digits(r.first) + "-" + Digits(r.last)
  }

  function ShowAll(runs: seq<Run>): seq<string> {
    if runs == [] then [] else ShowAll(runs[..|runs| - 1]) + [Show(runs[|runs| - 1])]
  }

  method Sort(years: set<nat>) returns (s: seq<nat>)
    ensures Ascending(s) && forall y :: y in s <==> y in years
  {
    s := [];
    var left := years;
    while left != {}
      invariant left <= years && Ascending(s) && forall y :: y in s <==> y in years - left
      decreases |left|
    {
      var y :| y in left;
      var i := |s|;
      while i > 0 && y < s[i - 1]
        invariant 0 <= i <= |s| && forall j :: i <= j < |s| ==> y < s[j]
      {
        i := i - 1;
      }
      InsertAscending(s, i, y);
      s := s[..i] + [y] + s[i..];
      left := left - {y};
    }
  }

  lemma InsertAscending(s: seq<nat>, i: nat, y: nat)
    requires Ascending(s) && y !in s && i <= |s| && (i > 0 ==> s[i - 1] <= y) && forall j :: i <= j < |s| ==> y < s[j]
    ensures Ascending(s[..i] + [y] + s[i..]) && forall x :: x in s[..i] + [y] + s[i..] <==> x in s || x == y
  {
    var a, b := s[..i], s[i..];
    assert s == a + b;
    forall j | 0 <= j < |a|
      ensures a[j] < y
    {
      assert a[j] in s;
      assert j < i - 1 ==> s[j] < s[i - 1];
    }
    ThreeAscend(a, y, b);
  }

  lemma ThreeAscend(a: seq<nat>, y: nat, b: seq<nat>)
    requires Ascending(a + b) && (forall j :: 0 <= j < |a| ==> a[j] < y) && forall j :: 0 <= j < |b| ==> y < b[j]
    ensures Ascending(a + [y] + b)
  {
    var s, t := a + b, a + [y] + b;
    forall j, k | 0 <= j < k < |t|
      ensures t[j] < t[k]
    {
      assert j < |a| ==> t[j] == s[j] == a[j];
      assert k < |a| ==> t[k] == s[k];
      assert j > |a| ==> t[j] == s[j - 1];
      assert k > |a| ==> t[k] == s[k - 1] == b[k - 1 - |a|];
    }
  }

  method Render(dates: seq<nat>) returns (output: seq<string>)
    requires dates != []
    ensures output == ShowAll(Runs(dates))
  {
    var first, second, i := dates[0], dates[0], 1;
    output := [];
    assert dates[..1][..0] == [] && dates[..1] == [dates[0]];
    while i < |dates|
      invariant 1 <= i <= |dates|
      invariant var r := Runs(dates[..i]); r != [] && r[|r| - 1] == Run(first, second) && output == ShowAll(r[..|r| - 1])
    {
      var next := dates[i];
      ghost var r := Runs(dates[..i]);
      assert dates[..i + 1][..i] == dates[..i];
      if next == second + 1 {
        second := next;
        assert Runs(dates[..i + 1])[..|r| - 1] == r[..|r| - 1];
      } else {
        output := output + [Show(Run(first, second))];
        first, second := next, next;
        assert Runs(dates[..i + 1])[..|r|] == r;
      }
      i := i + 1;
    }
    assert dates[..|dates|] == dates;
    output := output + [Show(Run(first, second))];
  }

  /** The list may not be empty: the first year is popped before anything else. */
  method DateStr(years: set<nat>) returns (text: Option<string>, ghost runs: seq<Run>)
    ensures text.None? <==> years == {}
    ensures Maximal(runs) && forall y: nat :: Covers(runs, y) <==> y in years
    ensures years != {} ==> text == Some(Join(ShowAll(runs), ','))
  {
    var dates := Sort(years);
    forall y: nat
      ensures Covers(Runs(dates), y) <==> y in years
    {
      RunsCover(dates, y);
    }
    RunsAreMaximal(dates);
    runs := Runs(dates);
    if dates == [] {
      return None, runs;
    }
    assert dates[0] in years;
    var output := Render(dates);
    return Some(Join(output, ',')), runs;
  }

  // ----- Reading

  /** Four digits, a dash and four digits, blanks allowed around the dash; what follows is not looked at. */
  function MatchRange(s: string): Option<Run> {
    if |s| < 4 || !AllDigits(s[..4]) then None
    else
      var t := StripLeft(s[4..]);
      if t == [] || t[0] != '-' then None
      else
        var u := StripLeft(t[1..]);
        if |u| < 4 || !AllDigits(u[..4]) then None else Some(Run(Number(s[..4]), Number(u[..4])))
  }

  /** The text starts with four digits, blanks, a dash, blanks and four digits. */
  ghost predicate Dashed(s: string, a: string, x: string, y: string, b: string, rest: string) {
    && |a| == 4 && AllDigits(a) && |b| == 4 && AllDigits(b) && Blanks(x) && Blanks(y)
    && s == a + (x + ("-" + (y + (b + rest))))
  }

  ghost predicate StartsWithRange(s: string, r: Run) {
    exists a, x, y, b, rest :: Dashed(s, a, x, y, b, rest) && r == Run(Number(a), Number(b))
  }

  lemma DashedMatches(s: string, a: string, x: string, y: string, b: string, rest: string)
    requires Dashed(s, a, x, y, b, rest)
    ensures MatchRange(s) == Some(Run(Number(a), Number(b)))
  {
    var u := b + rest;
    var t := "-" + (y + u);
    assert s[..4] == a && s[4..] == x + t && u[0] == b[0];
    StripLeftOf(x, t);
    assert t[1..] == y + u;
    StripLeftOf(y, u);
    assert u[..4] == b;
  }

  /** Exactly which texts are taken as a range, and as which. */
  lemma MatchesIffDashed(s: string, r: Run)
    ensures MatchRange(s) == Some(r) <==> StartsWithRange(s, r)
  {
    if MatchRange(s).Some? {
      var x := StripLeftTakes(s[4..]);
      var t := StripLeft(s[4..]);
      var y := StripLeftTakes(t[1..]);
      var u := StripLeft(t[1..]);
      assert t == "-" + t[1..] && u == u[..4] + u[4..] && s == s[..4] + s[4..];
      assert Dashed(s, s[..4], x, y, u[..4], u[4..]);
    }
    if a, x, y, b, rest :| Dashed(s, a, x, y, b, rest) && r == Run(Number(a), Number(b)) {
      DashedMatches(s, a, x, y, b, rest);
    }
  }

  function Span(first: int, last: int): (r: set<int>)
    ensures forall i :: i in r <==> first <= i <= last
    decreases last - first
  {
    if last < first then {} else Span(first, last - 1) + {last}
  }

  function Item(s: string): set<int> {
    if MatchRange(s).Some? then Span(MatchRange(s).value.first, MatchRange(s).value.last)
    else if ParseInteger(s, false).Some? then {ParseInteger(s, false).value}
    else {}
  }

  function Items(parts: seq<string>): set<int> {
    if parts == [] then {} else Items(parts[..|parts| - 1]) + Item(Strip(parts[|parts| - 1]))
  }

  method AddRange(years: set<int>, r: Run) returns (output: set<int>)
    ensures output == years + Span(r.first, r.last)
  {
    output := years;
    var i := r.first;
    while i <= r.last
      invariant r.first <= i && (i <= r.last + 1 || i == r.first)
      invariant output == years + Span(r.first, i - 1)
    {
      output := output + {i};
      i := i + 1;
    }
    assert Span(r.first, i - 1) == Span(r.first, r.last);
  }

  /** The years an item of the list stands for, by its text: a range if it starts with one, else an integer, else none. */
  ghost predicate Stands(s: string, y: int) {
    || (exists r :: StartsWithRange(s, r) && r.first <= y <= r.last)
    || ((forall r :: !StartsWithRange(s, r)) && IsIntegerText(s, false, y))
  }

  lemma ItemStands(s: string, y: int)
    ensures y in Item(s) <==> Stands(s, y)
  {
    forall r
      ensures MatchRange(s) == Some(r) <==> StartsWithRange(s, r)
    {
      MatchesIffDashed(s, r);
    }
    IntegerIff(s, false, y);
  }

  method ProcessDates(dates: string) returns (output: set<int>)
    ensures output == Items(Split(dates, ','))
    ensures forall y :: y in output <==> exists i :: 0 <= i < |Split(dates, ',')| && Stands(Strip(Split(dates, ',')[i]), y)
  {
    var parts := Split(dates, ',');
    output := {};
    for n := 0 to |parts|
      invariant output == Items(parts[..n])
    {
      assert parts[..n + 1][..n] == parts[..n];
      var date := Strip(parts[n]);
      var range := MatchRange(date);
      if range.Some? {
        output := AddRange(output, range.value);
      } else if ParseInteger(date, false).Some? {
        output := output + {ParseInteger(date, false).value};
      }
    }
    assert parts[..|parts|] == parts;
    forall y
      ensures y in output <==> exists i :: 0 <= i < |parts| && Stands(Strip(parts[i]), y)
    {
      ItemsStand(parts, y);
    }
  }

  lemma ItemsStand(parts: seq<string>, y: int)
    ensures y in Items(parts) <==> exists i :: 0 <= i < |parts| && Stands(Strip(parts[i]), y)
  {
    ItemsAre(parts, y);
    forall i | 0 <= i < |parts|
      ensures Reads(Strip(parts[i]), y) <==> Stands(Strip(parts[i]), y)
    {
      ItemStands(Strip(parts[i]), y);
    }
  }

  // ----- Printing then reading

  /** A range is read back only between years of four digits. */
  predicate Readable(r: Run) {
    r.first < r.last ==> 1000 <= r.first && r.last <= 9999
  }

  lemma {:induction false} DigitsLength(n: nat)
    ensures |Digits(n)| >= 1 && (|Digits(n)| == 1 <==> n < 10) && (|Digits(n)| == 2 <==> 10 <= n < 100)
    ensures (|Digits(n)| == 3 <==> 100 <= n < 1000) && (|Digits(n)| == 4 <==> 1000 <= n < 10000)
  {
    if n >= 10 {
      DigitsLength(n / 10);
    }
  }

  lemma {:induction false} PrefixNumber(s: string, k: nat)
    requires AllDigits(s) && k <= |s|
    ensures Number(s[..k]) <= Number(s)
    decreases |s|
  {
    if k < |s| {
      PrefixNumber(s[..|s| - 1], k);
      assert s[..|s| - 1][..k] == s[..k];
    } else {
      assert s[..k] == s;
    }
  }

  /** The first four of more digits spell less. */
  lemma FourOf(n: nat)
    requires n > 9999
    ensures |Digits(n)| > 4 && AllDigits(Digits(n)[..4]) && Number(Digits(n)[..4]) < n
  {
    DigitsLength(n);
    DigitsParse(n);
    DigitsParse(n / 10);
    PrefixNumber(Digits(n / 10), 4);
    assert Digits(n)[..4] == Digits(n / 10)[..4];
  }

  lemma DashedNoInt(a: string, b: string)
    requires a != [] && AllDigits(a) && b != [] && AllDigits(b)
    ensures ParseInteger(a + "-" + b, false).None?
  {
    var s := a + "-" + b;
    assert s[0] == a[0] && s[|a|] == '-';
    StripLine(s);
    NotAnInteger(s, |a|);
  }

  lemma NotFourDigits(a: string, b: string)
    requires a != [] && AllDigits(a) && |a| != 4
    ensures MatchRange(a + "-" + b).None?
  {
    var s := a + "-" + b;
    if |a| < 4 && |s| >= 4 {
      assert s[..4][|a|] == '-';
    }
    if |a| > 4 {
      assert s[4..][0] == a[4];
    }
  }

  lemma FourDigits(a: string, b: string)
    requires |a| == 4 && AllDigits(a) && |b| >= 4 && AllDigits(b)
    ensures MatchRange(a + "-" + b) == Some(Run(Number(a), Number(b[..4])))
  {
    var s := a + "-" + b;
    assert s[..4] == a;
    assert s[4..] == "-" + b;
    MatchedRest(b);
  }

  lemma MatchedRest(b: string)
    requires b != [] && AllDigits(b)
    ensures StripLeft("-" + b) == "-" + b && ("-" + b)[1..] == b && StripLeft(b) == b
  {
  }

  lemma SingleItem(y: nat)
    ensures Item(Digits(y)) == {y}
  {
    var s := Digits(y);
    DigitsParse(y);
    DigitsAreInteger(y, false);
    assert MatchRange(s).None? by {
      if |s| > 4 {
        assert IsDigit(s[4..][0]);
      }
    }
  }

  /** Reading a run back never adds a year outside it, and loses its last year unless it is readable. */
  lemma ItemOfRun(r: Run, y: int)
    requires r.first <= r.last
    ensures Reads(Show(r), y) ==> r.first <= y <= r.last
    ensures Readable(r) && r.first <= y <= r.last ==> Reads(Show(r), y)
    ensures !Readable(r) ==> !Reads(Show(r), r.last)
  {
    if r.first == r.last {
      SingleItem(r.first);
    } else {
      var a, b := Digits(r.first), Digits(r.last);
      DigitsParse(r.first);
      DigitsParse(r.last);
      DigitsLength(r.first);
      DigitsLength(r.last);
      DashedNoInt(a, b);
      if |a| == 4 {
        FourDigits(a, b);
        if r.last > 9999 {
          FourOf(r.last);
        } else {
          assert b[..4] == b;
        }
      } else {
        NotFourDigits(a, b);
      }
    }
  }

  lemma ShowIsClean(r: Run)
    ensures ',' !in Show(r) && Strip(Show(r)) == Show(r)
  {
    DigitsParse(r.first);
    DigitsParse(r.last);
    StripLine(Show(r));
  }

  ghost predicate Reads(s: string, y: int) {
    y in Item(s)
  }

  lemma {:induction false} ItemsAre(parts: seq<string>, y: int)
    ensures y in Items(parts) <==> exists i :: 0 <= i < |parts| && Reads(Strip(parts[i]), y)
  {
    if parts != [] {
      var front := parts[..|parts| - 1];
      ItemsAre(front, y);
      assert forall i :: 0 <= i < |front| ==> front[i] == parts[i];
      assert Reads(Strip(parts[|parts| - 1]), y) <==> y in Item(Strip(parts[|parts| - 1]));
      if y in Items(front) {
        var i :| 0 <= i < |front| && Reads(Strip(front[i]), y);
        assert Reads(Strip(parts[i]), y);
      }
    }
  }

  lemma {:induction false} ShowAllAt(runs: seq<Run>, i: nat)
    requires i < |runs|
    ensures |ShowAll(runs)| == |runs| && ShowAll(runs)[i] == Show(runs[i])
  {
    if |runs| > 1 {
      ShowAllAt(runs[..|runs| - 1], if i < |runs| - 1 then i else 0);
    }
  }

  lemma ItemsOfRuns(runs: seq<Run>, y: int)
    ensures y in Items(ShowAll(runs)) <==> exists i :: 0 <= i < |runs| && Reads(Show(runs[i]), y)
  {
    var parts := ShowAll(runs);
    ItemsAre(parts, y);
    ShowAllAvoids(runs);
    forall i | 0 <= i < |runs|
      ensures Reads(Strip(parts[i]), y) <==> Reads(Show(runs[i]), y)
    {
      ShowAllAt(runs, i);
      ShowIsClean(runs[i]);
    }
  }

  lemma {:induction false} ShowAllAvoids(runs: seq<Run>)
    ensures Avoids(ShowAll(runs), ',') && |ShowAll(runs)| == |runs|
  {
    if runs != [] {
      ShowAllAvoids(runs[..|runs| - 1]);
      ShowIsClean(runs[|runs| - 1]);
    }
  }

  ghost predicate Holds(back: set<int>, runs: seq<Run>) {
    forall y: int :: y in back <==> y >= 0 && Covers(runs, y)
  }

  /** Exactly the years printed are read back, if and only if every range is between years of four digits. */
  lemma RoundTripIffReadable(runs: seq<Run>)
    requires Maximal(runs) && runs != []
    ensures Holds(Items(Split(Join(ShowAll(runs), ','), ',')), runs) <==> forall i :: 0 <= i < |runs| ==> Readable(runs[i])
  {
    ShowAllAvoids(runs);
    SplitJoin(ShowAll(runs), ',');
    var back := Items(ShowAll(runs));
    forall y: int
      ensures y in back ==> y >= 0 && Covers(runs, y)
      ensures (forall i :: 0 <= i < |runs| ==> Readable(runs[i])) && y >= 0 && Covers(runs, y) ==> y in back
    {
      ItemsOfRuns(runs, y);
      if y in back {
        var i :| 0 <= i < |runs| && Reads(Show(runs[i]), y);
        ItemOfRun(runs[i], y);
      }
      if (forall i :: 0 <= i < |runs| ==> Readable(runs[i])) && y >= 0 && Covers(runs, y) {
        var i :| 0 <= i < |runs| && runs[i].first <= y <= runs[i].last;
        ItemOfRun(runs[i], y);
      }
    }
    forall i | 0 <= i < |runs| && !Readable(runs[i])
      ensures runs[i].last !in back && Covers(runs, runs[i].last)
    {
      LostYear(runs, i);
    }
  }

  lemma LostYear(runs: seq<Run>, i: nat)
    requires Maximal(runs) && i < |runs| && !Readable(runs[i])
    ensures runs[i].last !in Items(ShowAll(runs)) && Covers(runs, runs[i].last)
  {
    var y := runs[i].last;
    ItemsOfRuns(runs, y);
    forall j | 0 <= j < |runs|
      ensures !Reads(Show(runs[j]), y)
    {
      ItemOfRun(runs[j], y);
      assert j < i ==> runs[j].last + 1 < runs[i].first;
      assert i < j ==> runs[i].last + 1 < runs[j].first;
    }
  }

  lemma SameYears(back: set<int>, runs: seq<Run>, years: set<nat>)
    requires Holds(back, runs) && forall y: nat :: Covers(runs, y) <==> y in years
    ensures back == years
  {
    forall y: int
      ensures y in back <==> y in years
    {
      assert y in years ==> y >= 0;
      assert y >= 0 ==> (Covers(runs, y) <==> y in years);
    }
  }

  lemma RunsAreReadable(runs: seq<Run>)
    requires Maximal(runs) && forall y: nat :: Covers(runs, y) ==> 1000 <= y <= 9999
    ensures forall i :: 0 <= i < |runs| ==> Readable(runs[i])
  {
    forall i | 0 <= i < |runs|
      ensures Readable(runs[i])
    {
      assert Covers(runs, runs[i].first) && Covers(runs, runs[i].last);
    }
  }

  /** Any set of four-digit years comes back whole. */
  lemma FourDigitYears(years: set<nat>, runs: seq<Run>)
    requires years != {} && (forall y :: y in years ==> 1000 <= y <= 9999)
    requires Maximal(runs) && forall y: nat :: Covers(runs, y) <==> y in years
    ensures Items(Split(Join(ShowAll(runs), ','), ',')) == years
  {
    var y :| y in years;
    assert Covers(runs, y);
    RunsAreReadable(runs);
    RoundTripIffReadable(runs);
    SameYears(Items(Split(Join(ShowAll(runs), ','), ',')), runs, years);
  }

  lemma ShowTwo(a: Run, b: Run)
    ensures Join(ShowAll([a, b]), ',') == Show(a) + "," + Show(b)
  {
    assert [a, b][..1] == [a] && [a][..0] == [];
    assert ShowAll([a]) == [Show(a)];
    assert ShowAll([a, b]) == [Show(a), Show(b)];
    assert ShowAll([a, b])[1..] == [Show(b)];
  }

  lemma ShowsYears()
    ensures Join(ShowAll([Run(1999, 2001), Run(2004, 2004)]), ',') == "1999-2001,2004"
  {
    ShowTwo(Run(1999, 2001), Run(2004, 2004));
    assert Digits(1999) == "1999" && Digits(2001) == "2001" && Digits(2004) == "2004";
  }
}
