/**
 The ASCII form of an instruction dependency trace: one line per record,
 `seq_num,pc,weight,type[,p_addr,size,flags],comp_delay:[,dep]*:[,dep]*`.
 */
module DepTrace {
  import opened Basics
  import opened Text

  type U64 = n: nat | n < 0x1_0000_0000_0000_0000
  type U32 = n: nat | n < 0x1_0000_0000

  datatype Kind = Invalid | Load | Store | Comp

  datatype Record = Record(
    seqNum: U64, kind: Kind, pAddr: Option<U64>, size: Option<U32>, flags: Option<U32>, robDep: seq<U64>,
    compDelay: U64, regDep: seq<U64>, weight: Option<U32>, pc: Option<U64>, vAddr: Option<U64>, asid: Option<U32>)

  // ----- Printing

  function Name(k: Kind): string {
    match k
    case Invalid => "INVALID"
    case Load => "LOAD"
    case Store => "STORE"
    case Comp => "COMP"
  }

  function Or(o: Option<nat>, d: nat): nat {
    if o.Some? then o.value else d
  }

  function IfPresent(o: Option<nat>): seq<string> {
    if o.Some? then [Digits(o.value)] else []
  }

  function Fields(r: Record): seq<string> {
    [Digits(r.seqNum), Digits(Or(r.pc, 0)), Digits(Or(r.weight, 1)), Name(r.kind)]
    + IfPresent(r.pAddr) + IfPresent(r.size) + IfPresent(r.flags) + [Digits(r.compDelay)]
  }

  function AllDecimal(ns: seq<nat>): seq<string> {
    if ns == [] then [] else AllDecimal(ns[..|ns| - 1]) + [Digits(ns[|ns| - 1])]
  }

  /** Dependencies are each preceded by a comma, so the first item is empty. */
  function Items(deps: seq<nat>): seq<string> {
    [""] + AllDecimal(deps)
  }

  function Line(r: Record): string {
    Join([Join(Fields(r), ','), Join(Items(r.robDep), ','), Join(Items(r.regDep), ',')], ':')
  }

  lemma {:induction false} JoinOne(parts: seq<string>, sep: char, s: string)
    requires parts != []
    ensures Join(parts + [s], sep) == Join(parts, sep) + [sep] + s
  {
    if |parts| == 1 {
      assert (parts + [s])[1..] == [s];
    } else {
      JoinOne(parts[1..], sep, s);
      assert (parts + [s])[1..] == parts[1..] + [s];
      assert Join(parts + [s], sep) == parts[0] + [sep] + (Join(parts[1..], sep) + [sep] + s);
    }
  }

  method PrintDeps(deps: seq<U64>) returns (out: string)
    ensures out == Join(Items(deps), ',')
  {
    out := "";
    for i := 0 to |deps|
      invariant out == Join(Items(deps[..i]), ',')
    {
      out := out + "," + Digits(deps[i]);
      assert deps[..i + 1][..i] == deps[..i];
      JoinOne(Items(deps[..i]), ',', Digits(deps[i]));
      assert Items(deps[..i + 1]) == Items(deps[..i]) + [Digits(deps[i])];
    }
    assert deps[..|deps|] == deps;
  }

  method PrintField(ghost fields: seq<string>, out: string, o: Option<nat>) returns (out': string)
    requires fields != [] && out == Join(fields, ',')
    ensures out' == Join(fields + IfPresent(o), ',')
  {
    out' := out;
    if o.Some? {
      JoinOne(fields, ',', Digits(o.value));
      out' := out + "," + Digits(o.value);
    } else {
      assert fields + [] == fields;
    }
  }

  method PrintRecord(r: Record) returns (line: string)
    ensures line == Line(r) + "\n"
  {
    var out := Digits(r.seqNum);
    ghost var fields := [Digits(r.seqNum)];
    out := PrintField(fields, out, Some(Or(r.pc, 0)));
    fields := fields + IfPresent(Some(Or(r.pc, 0)));
    out := PrintField(fields, out, Some(Or(r.weight, 1)));
    fields := fields + IfPresent(Some(Or(r.weight, 1)));
    JoinOne(fields, ',', Name(r.kind));
    out := out + "," + Name(r.kind);
    fields := fields + [Name(r.kind)];
    out := PrintField(fields, out, r.pAddr);
    fields := fields + IfPresent(r.pAddr);
    out := PrintField(fields, out, r.size);
    fields := fields + IfPresent(r.size);
    out := PrintField(fields, out, r.flags);
    fields := fields + IfPresent(r.flags);
    out := PrintField(fields, out, Some(r.compDelay));
    fields := fields + IfPresent(Some(r.compDelay));
    assert fields == Fields(r);
    var rob := PrintDeps(r.robDep);
    var reg := PrintDeps(r.regDep);
    LineIs(r);
    line := out + ":" + rob + ":" + reg + "\n";
  }

  lemma LineIs(r: Record)
    ensures Line(r) == Join(Fields(r), ',') + ":" + Join(Items(r.robDep), ',') + ":" + Join(Items(r.regDep), ',')
  {
    JoinThree(Join(Fields(r), ','), Join(Items(r.robDep), ','), Join(Items(r.regDep), ','));
  }

  lemma JoinThree(a: string, b: string, c: string)
    ensures Join([a, b, c], ':') == a + ":" + b + ":" + c
  {
    assert [a, b, c][1..] == [b, c] && [b, c][1..] == [c];
    assert Join([b, c], ':') == b + [':'] + c;
    assert a + [':'] + (b + [':'] + c) == a + ":" + b + ":" + c;
  }

  // ----- Parsing

  /** A value that does not fit its field is an error. */
  function Bounded64(s: string): Option<U64> {
    match ParseInteger(s, true)
    case None => None
    case Some(n) => if 0 <= n < 0x1_0000_0000_0000_0000 then Some(n) else None
  }

  function Bounded32(s: string, suffix: bool): Option<U32> {
    match ParseInteger(s, suffix)
    case None => None
    case Some(n) => if 0 <= n < 0x1_0000_0000 then Some(n) else None
  }

  function KindOf(s: string): Option<Kind> {
    if s == "INVALID" then Some(Invalid)
    else if s == "LOAD" then Some(Load)
    else if s == "STORE" then Some(Store)
    else if s == "COMP" then Some(Comp)
    else None
  }

  /** Empty items are skipped. */
  function Deps(items: seq<string>): Option<seq<U64>> {
    if items == [] then Some([])
    else
      var front, last := Deps(items[..|items| - 1]), items[|items| - 1];
      if front.None? || last == "" then front
      else if Bounded64(last).None? then None else Some(front.value + [Bounded64(last).value])
  }

  /** The part before the first colon; `None` where the script stops with an error. */
  function Info(info: seq<string>, rob: seq<U64>, reg: seq<U64>): Option<Record> {
    if |info| < 5 then None
    else
      var seqNum, pc, weight, kind := Bounded64(info[0]), Bounded64(info[1]), Bounded32(info[2], true), KindOf(info[3]);
      if seqNum.None? || pc.None? || weight.None? || kind.None? || kind.value.Invalid? then None
      else if kind.value.Comp? then
        var delay := Bounded64(info[4]);
        if delay.None? then None
        else Some(Record(seqNum.value, kind.value, None, None, None, rob, delay.value, reg, weight, pc, None, None))
      else if |info| < 8 then None
      else
        var pAddr, size, flags, delay := Bounded64(info[4]), Bounded32(info[5], false), Bounded32(info[6], false), Bounded64(info[7]);
        if pAddr.None? || size.None? || flags.None? || delay.None? then None
        else Some(Record(seqNum.value, kind.value, pAddr, size, flags, rob, delay.value, reg, weight, pc, None, None))
  }

  function Parse(line: string): Option<Record> {
    var parts := Split(Strip(line), ':');
    if |parts| != 3 then None
    else
      var rob, reg := Deps(Split(Strip(parts[1]), ',')), Deps(Split(parts[2], ','));
      if rob.None? || reg.None? then None else Info(Split(parts[0], ','), rob.value, reg.value)
  }

  method ParseDeps(items: seq<string>) returns (deps: Option<seq<U64>>)
    ensures deps == Deps(items)
  {
    var found: seq<U64> := [];
    for i := 0 to |items|
      invariant Deps(items[..i]) == Some(found)
    {
      assert items[..i + 1][..i] == items[..i];
      if items[i] != "" {
        var n := Bounded64(items[i]);
        if n.None? {
          DepsFail(items, i + 1);
          return None;
        }
        found := found + [n.value];
      }
    }
    assert items[..|items|] == items;
    return Some(found);
  }

  lemma {:induction false} DepsFail(items: seq<string>, n: nat)
    requires n <= |items| && Deps(items[..n]).None?
    ensures Deps(items).None?
    decreases |items| - n
  {
    if n == |items| {
      assert items[..n] == items;
    } else {
      assert items[..n + 1][..n] == items[..n];
      DepsFail(items, n + 1);
    }
  }

  method ParseRecord(line: string) returns (r: Option<Record>)
    ensures r == Parse(line)
  {
    var parts := Split(Strip(line), ':');
    if |parts| != 3 {
      return None;
    }
    var rob := ParseDeps(Split(Strip(parts[1]), ','));
    var reg := ParseDeps(Split(parts[2], ','));
    if rob.None? || reg.None? {
      return None;
    }
    return Info(Split(parts[0], ','), rob.value, reg.value);
  }

  // ----- The line as text

  function Kinds(k: Kind): string {
    if k == Load then "LOAD" else if k == Store then "STORE" else if k == Comp then "COMP" else "INVALID"
  }

  /** A comma before each number. */
  function Commas(ns: seq<nat>): string {
    if ns == [] then "" else Commas(ns[..|ns| - 1]) + "," + Digits(ns[|ns| - 1])
  }

  function Given(o: Option<nat>): string {
    if o.Some? then "," + Digits(o.value) else ""
  }

  lemma {:induction false} ItemsAreCommas(deps: seq<nat>)
    ensures Join(Items(deps), ',') == Commas(deps)
  {
    if deps != [] {
      var front, last := deps[..|deps| - 1], deps[|deps| - 1];
      ItemsAreCommas(front);
      assert Items(deps) == Items(front) + [Digits(last)];
      JoinOne(Items(front), ',', Digits(last));
    }
  }

  lemma JoinGiven(parts: seq<string>, o: Option<nat>)
    requires parts != []
    ensures Join(parts + IfPresent(o), ',') == Join(parts, ',') + Given(o)
  {
    if o.Some? {
      JoinOne(parts, ',', Digits(o.value));
    } else {
      assert parts + [] == parts;
    }
  }

  lemma JoinFour(a: string, b: string, c: string, d: string)
    ensures Join([a, b, c, d], ',') == a + "," + b + "," + c + "," + d
  {
    JoinOne([a], ',', b);
    JoinOne([a] + [b], ',', c);
    JoinOne([a] + [b] + [c], ',', d);
    assert [a, b, c, d] == [a] + [b] + [c] + [d];
  }

  lemma FieldsText(r: Record)
    ensures Join(Fields(r), ',') ==
      Digits(r.seqNum) + "," + Digits(if r.pc.Some? then r.pc.value else 0) + "," + Digits(if r.weight.Some? then r.weight.value else 1)
      + "," + Kinds(r.kind) + Given(r.pAddr) + Given(r.size) + Given(r.flags) + "," + Digits(r.compDelay)
  {
    JoinFour(Digits(r.seqNum), Digits(Or(r.pc, 0)), Digits(Or(r.weight, 1)), Name(r.kind));
    JoinRest([Digits(r.seqNum), Digits(Or(r.pc, 0)), Digits(Or(r.weight, 1)), Name(r.kind)], r.pAddr, r.size, r.flags, r.compDelay);
  }

  lemma JoinRest(head: seq<string>, a: Option<nat>, b: Option<nat>, c: Option<nat>, d: nat)
    requires head != []
    ensures Join(head + IfPresent(a) + IfPresent(b) + IfPresent(c) + [Digits(d)], ',')
         == Join(head, ',') + Given(a) + Given(b) + Given(c) + "," + Digits(d)
  {
    JoinGiven(head, a);
    JoinGiven(head + IfPresent(a), b);
    JoinGiven(head + IfPresent(a) + IfPresent(b), c);
    JoinOne(head + IfPresent(a) + IfPresent(b) + IfPresent(c), ',', Digits(d));
  }

  /** The printed line, field by field. */
  lemma LineText(r: Record)
    ensures Line(r) ==
      Digits(r.seqNum) + "," + Digits(if r.pc.Some? then r.pc.value else 0) + "," + Digits(if r.weight.Some? then r.weight.value else 1)
      + "," + Kinds(r.kind) + Given(r.pAddr) + Given(r.size) + Given(r.flags) + "," + Digits(r.compDelay)
      + ":" + Commas(r.robDep) + ":" + Commas(r.regDep)
  {
    LineIs(r);
    FieldsText(r);
    ItemsAreCommas(r.robDep);
    ItemsAreCommas(r.regDep);
  }

  // ----- Which lines parse

  /** The text is an integer that fits. */
  ghost predicate Fits(s: string, suffix: bool, bound: int, v: int) {
    0 <= v < bound && IsIntegerText(s, suffix, v)
  }

  const TWO_32 := 0x1_0000_0000
  const TWO_64 := 0x1_0000_0000_0000_0000

  lemma BoundedIff(s: string, v: nat)
    ensures Fits(s, true, TWO_64, v) <==> Bounded64(s) == Some(v)
    ensures Fits(s, true, TWO_32, v) <==> Bounded32(s, true) == Some(v)
    ensures Fits(s, false, TWO_32, v) <==> Bounded32(s, false) == Some(v)
  {
    IntegerIff(s, true, v);
    IntegerIff(s, false, v);
  }

  /** The items that are not empty are the dependencies, in order. */
  ghost predicate Listed(items: seq<string>, deps: seq<U64>) {
    if items == [] then deps == []
    else
      var front, last := items[..|items| - 1], items[|items| - 1];
      if last == "" then Listed(front, deps)
      else deps != [] && Fits(last, true, TWO_64, deps[|deps| - 1]) && Listed(front, deps[..|deps| - 1])
  }

  lemma {:induction false} DepsIff(items: seq<string>, deps: seq<U64>)
    ensures Deps(items) == Some(deps) <==> Listed(items, deps)
  {
    if items != [] {
      var front, last := items[..|items| - 1], items[|items| - 1];
      if last == "" {
        DepsIff(front, deps);
      } else if deps != [] {
        DepsIff(front, deps[..|deps| - 1]);
        BoundedIff(last, deps[|deps| - 1]);
        LastIs(Deps(front), Bounded64(last), deps);
      }
    }
  }

  ghost predicate SaysHead(info: seq<string>, r: Record)
    requires |info| >= 5
  {
    && Fits(info[0], true, TWO_64, r.seqNum)
    && r.pc.Some? && Fits(info[1], true, TWO_64, r.pc.value)
    && r.weight.Some? && Fits(info[2], true, TWO_32, r.weight.value)
    && r.vAddr.None? && r.asid.None?
  }

  ghost predicate SaysComputation(info: seq<string>, r: Record)
    requires |info| >= 5
  {
    && info[3] == "COMP" && r.kind == Comp
    && r.pAddr.None? && r.size.None? && r.flags.None? && Fits(info[4], true, TWO_64, r.compDelay)
  }

  ghost predicate SaysAccess(info: seq<string>, r: Record)
    requires |info| >= 5
  {
    && ((info[3] == "LOAD" && r.kind == Load) || (info[3] == "STORE" && r.kind == Store))
    && |info| >= 8 && r.pAddr.Some? && Fits(info[4], true, TWO_64, r.pAddr.value)
    && r.size.Some? && Fits(info[5], false, TWO_32, r.size.value)
    && r.flags.Some? && Fits(info[6], false, TWO_32, r.flags.value) && Fits(info[7], true, TWO_64, r.compDelay)
  }

  /** The fields before the first colon say what the record says. */
  ghost predicate Says(info: seq<string>, r: Record) {
    |info| >= 5 && SaysHead(info, r) && (SaysComputation(info, r) || SaysAccess(info, r))
  }

  lemma HeadIff(info: seq<string>, r: Record)
    requires |info| >= 5
    ensures SaysHead(info, r) <==>
      && Bounded64(info[0]) == Some(r.seqNum) && r.pc.Some? && Bounded64(info[1]) == r.pc
      && r.weight.Some? && Bounded32(info[2], true) == r.weight && r.vAddr.None? && r.asid.None?
  {
    BoundedIff(info[0], r.seqNum);
    if r.pc.Some? {
      BoundedIff(info[1], r.pc.value);
    }
    if r.weight.Some? {
      BoundedIff(info[2], r.weight.value);
    }
  }

  lemma AccessIff(info: seq<string>, r: Record)
    requires |info| >= 5
    ensures SaysAccess(info, r) <==>
      && ((info[3] == "LOAD" && r.kind == Load) || (info[3] == "STORE" && r.kind == Store))
      && |info| >= 8 && r.pAddr.Some? && Bounded64(info[4]) == r.pAddr && r.size.Some? && Bounded32(info[5], false) == r.size
      && r.flags.Some? && Bounded32(info[6], false) == r.flags && Bounded64(info[7]) == Some(r.compDelay)
  {
    if |info| >= 8 && r.pAddr.Some? && r.size.Some? && r.flags.Some? {
      BoundedIff(info[4], r.pAddr.value);
      BoundedIff(info[5], r.size.value);
      BoundedIff(info[6], r.flags.value);
      BoundedIff(info[7], r.compDelay);
    }
  }

  lemma InfoIff(info: seq<string>, rob: seq<U64>, reg: seq<U64>, r: Record)
    ensures Info(info, rob, reg) == Some(r) <==> Says(info, r) && r.robDep == rob && r.regDep == reg
  {
    if |info| >= 5 {
      HeadIff(info, r);
      AccessIff(info, r);
      BoundedIff(info[4], r.compDelay);
    }
  }

  /** Exactly which lines parse, and as what. */
  lemma ParseIff(line: string, r: Record)
    ensures Parse(line) == Some(r) <==>
      var parts := Split(Strip(line), ':');
      && |parts| == 3 && Says(Split(parts[0], ','), r)
      && Listed(Split(Strip(parts[1]), ','), r.robDep) && Listed(Split(parts[2], ','), r.regDep)
  {
    var parts := Split(Strip(line), ':');
    if |parts| == 3 {
      DepsIff(Split(Strip(parts[1]), ','), r.robDep);
      DepsIff(Split(parts[2], ','), r.regDep);
      InfoIff(Split(parts[0], ','), r.robDep, r.regDep, r);
      var rob, reg := Deps(Split(Strip(parts[1]), ',')), Deps(Split(parts[2], ','));
      if rob.Some? && reg.Some? {
        InfoIff(Split(parts[0], ','), rob.value, reg.value, r);
      }
    }
  }

  // ----- Printing then parsing

  /** What the trace keeps: defaults filled in, virtual address and address space dropped. */
  function Normal(r: Record): Record {
    r.(pc := Some(Or(r.pc, 0)), weight := Some(Or(r.weight, 1)), vAddr := None, asid := None)
  }

  /** Loads and stores carry address, size and flags; computations carry none of them. */
  predicate WellFormed(r: Record) {
    match r.kind
    case Invalid => false
    case Comp => r.pAddr.None? && r.size.None? && r.flags.None?
    case _ => r.pAddr.Some? && r.size.Some? && r.flags.Some?
  }

  /** Digits and upper-case letters: no comma, colon or blank. */
  ghost predicate Plain(s: string) {
    forall i :: 0 <= i < |s| ==> IsDigit(s[i]) || 'A' <= s[i] <= 'Z'
  }

  ghost predicate AllPlain(parts: seq<string>) {
    forall i :: 0 <= i < |parts| ==> Plain(parts[i])
  }

  ghost predicate Clean(s: string) {
    forall i :: 0 <= i < |s| ==> !IsBlank(s[i])
  }

  lemma DigitsArePlain(n: nat)
    ensures Plain(Digits(n))
  {
    DigitsParse(n);
  }

  lemma OptionalIsPlain(o: Option<nat>)
    ensures AllPlain(IfPresent(o))
  {
    DigitsArePlain(Or(o, 0));
  }

  lemma PlainCat(a: seq<string>, b: seq<string>)
    requires AllPlain(a) && AllPlain(b)
    ensures AllPlain(a + b)
  {
  }

  lemma HeadIsPlain(r: Record)
    ensures AllPlain([Digits(r.seqNum), Digits(Or(r.pc, 0)), Digits(Or(r.weight, 1)), Name(r.kind)])
  {
    DigitsArePlain(r.seqNum);
    DigitsArePlain(Or(r.pc, 0));
    DigitsArePlain(Or(r.weight, 1));
  }

  lemma FieldsArePlain(r: Record)
    ensures AllPlain(Fields(r))
  {
    var head := [Digits(r.seqNum), Digits(Or(r.pc, 0)), Digits(Or(r.weight, 1)), Name(r.kind)];
    HeadIsPlain(r);
    OptionalIsPlain(r.pAddr);
    OptionalIsPlain(r.size);
    OptionalIsPlain(r.flags);
    DigitsArePlain(r.compDelay);
    PlainCat(head, IfPresent(r.pAddr));
    PlainCat(head + IfPresent(r.pAddr), IfPresent(r.size));
    PlainCat(head + IfPresent(r.pAddr) + IfPresent(r.size), IfPresent(r.flags));
    PlainCat(head + IfPresent(r.pAddr) + IfPresent(r.size) + IfPresent(r.flags), [Digits(r.compDelay)]);
  }

  lemma {:induction false} ItemsArePlain(deps: seq<U64>)
    ensures AllPlain(Items(deps))
  {
    if deps != [] {
      ItemsArePlain(deps[..|deps| - 1]);
      DigitsParse(deps[|deps| - 1]);
      assert Items(deps) == Items(deps[..|deps| - 1]) + [Digits(deps[|deps| - 1])];
    }
  }

  lemma PlainJoin(parts: seq<string>)
    requires parts != [] && AllPlain(parts)
    ensures Split(Join(parts, ','), ',') == parts && ':' !in Join(parts, ',')
  {
    SplitJoin(parts, ',');
    JoinAvoids(parts, ',', ':');
  }

  lemma {:induction false} JoinIsClean(parts: seq<string>, sep: char)
    requires !IsBlank(sep) && forall i :: 0 <= i < |parts| ==> Clean(parts[i])
    ensures Clean(Join(parts, sep))
  {
    if |parts| > 1 {
      JoinIsClean(parts[1..], sep);
    }
  }

  lemma DepsOne(items: seq<string>, n: U64)
    requires Deps(items).Some?
    ensures Deps(items + [Digits(n)]) == Some(Deps(items).value + [n])
  {
    DigitsParse(n);
    DigitsAreInteger(n, true);
    assert (items + [Digits(n)])[..|items|] == items;
  }

  lemma {:induction false} DepsOfItems(deps: seq<U64>)
    ensures Deps(Items(deps)) == Some(deps)
  {
    if deps == [] {
      assert Items(deps)[..0] == [];
    } else {
      var front, last := deps[..|deps| - 1], deps[|deps| - 1];
      DepsOfItems(front);
      assert Items(deps) == Items(front) + [Digits(last)];
      DepsOne(Items(front), last);
      assert deps == front + [last];
    }
  }

  /** Parsing the printed line is reading back the fields. */
  lemma ParseOfLine(r: Record)
    ensures Clean(Line(r))
    ensures Parse(Line(r)) == Parse(Line(r) + "\n") == Info(Fields(r), r.robDep, r.regDep)
  {
    var info, rob, reg := Join(Fields(r), ','), Join(Items(r.robDep), ','), Join(Items(r.regDep), ',');
    FieldsArePlain(r);
    ItemsArePlain(r.robDep);
    ItemsArePlain(r.regDep);
    PlainJoin(Fields(r));
    PlainJoin(Items(r.robDep));
    PlainJoin(Items(r.regDep));
    JoinIsClean(Fields(r), ',');
    JoinIsClean(Items(r.robDep), ',');
    JoinIsClean(Items(r.regDep), ',');
    JoinIsClean([info, rob, reg], ':');
    StripLine(Line(r));
    StripLine(rob);
    SplitJoin([info, rob, reg], ':');
    DepsOfItems(r.robDep);
    DepsOfItems(r.regDep);
  }

  lemma NumbersParse(r: Record)
    ensures Bounded64(Digits(r.seqNum)) == Some(r.seqNum) && Bounded64(Digits(Or(r.pc, 0))) == Some(Or(r.pc, 0))
    ensures Bounded32(Digits(Or(r.weight, 1)), true) == Some(Or(r.weight, 1))
    ensures Bounded64(Digits(r.compDelay)) == Some(r.compDelay)
    ensures r.pAddr.Some? ==> Bounded64(Digits(r.pAddr.value)) == r.pAddr
    ensures r.size.Some? ==> Bounded32(Digits(r.size.value), false) == r.size
    ensures r.flags.Some? ==> Bounded32(Digits(r.flags.value), false) == r.flags
  {
    DigitsAreInteger(r.seqNum, true);
    DigitsAreInteger(Or(r.pc, 0), true);
    DigitsAreInteger(Or(r.weight, 1), true);
    DigitsAreInteger(r.compDelay, true);
    DigitsAreInteger(Or(r.pAddr, 0), true);
    DigitsAreInteger(Or(r.size, 0), false);
    DigitsAreInteger(Or(r.flags, 0), false);
  }

  function Present(o: Option<nat>): nat {
    if o.Some? then 1 else 0
  }

  lemma FieldsAre(r: Record)
    ensures var fs := Fields(r);
      && |fs| == 5 + Present(r.pAddr) + Present(r.size) + Present(r.flags)
      && fs[0] == Digits(r.seqNum) && fs[1] == Digits(Or(r.pc, 0)) && fs[2] == Digits(Or(r.weight, 1)) && fs[3] == Name(r.kind)
      && fs[|fs| - 1] == Digits(r.compDelay)
      && (r.pAddr.Some? && r.size.Some? && r.flags.Some? ==>
            fs[4] == Digits(r.pAddr.value) && fs[5] == Digits(r.size.value) && fs[6] == Digits(r.flags.value))
  {
  }

  lemma NamesDiffer(k: Kind)
    ensures KindOf(Name(k)) == Some(k)
  {
  }

  /** A computation comes back unless it has fields that only loads and stores have. */
  lemma ComputationBack(r: Record, fs: seq<string>)
    requires r.kind.Comp? && fs == Fields(r)
    ensures Info(fs, r.robDep, r.regDep) == Some(Normal(r)) <==> WellFormed(r)
  {
    FieldsAre(r);
    NamesDiffer(r.kind);
    NumbersParse(r);
  }

  /** A load or store comes back unless it lacks one of its fields. */
  lemma AccessBack(r: Record, fs: seq<string>)
    requires (r.kind.Load? || r.kind.Store?) && fs == Fields(r)
    ensures Info(fs, r.robDep, r.regDep) == Some(Normal(r)) <==> WellFormed(r)
  {
    FieldsAre(r);
    NamesDiffer(r.kind);
    NumbersParse(r);
  }

  /** The record comes back, defaults filled in, exactly when it has the fields of its type. */
  lemma RoundTripIffWellFormed(r: Record)
    ensures Parse(Line(r) + "\n") == Some(Normal(r)) <==> WellFormed(r)
  {
    ParseOfLine(r);
    FieldsAre(r);
    NamesDiffer(r.kind);
    match r.kind
    case Invalid =>
    case Comp => ComputationBack(r, Fields(r));
    case _ => AccessBack(r, Fields(r));
  }

  // ----- Whole traces

  function Written(lines: seq<string>): string {
    if lines == [] then "" else Written(lines[..|lines| - 1]) + (lines[|lines| - 1] + "\n")
  }

  /** The lines of a file; nothing follows the last newline. */
  function FileLines(text: string): seq<string> {
    var parts := Split(text, '\n');
    if parts[|parts| - 1] == "" then parts[..|parts| - 1] else parts
  }

  /** Every line must parse. */
  function ParseAll<R>(parse: string -> Option<R>, lines: seq<string>): Option<seq<R>> {
    if lines == [] then Some([])
    else
      var front, last := ParseAll(parse, lines[..|lines| - 1]), parse(lines[|lines| - 1]);
      if front.None? || last.None? then None else Some(front.value + [last.value])
  }

  method PrintTrace(rs: seq<Record>) returns (text: string)
    ensures text == Written(AllLines(rs))
  {
    text := "";
    for i := 0 to |rs|
      invariant text == Written(AllLines(rs[..i]))
    {
      assert rs[..i + 1][..i] == rs[..i];
      var line := PrintRecord(rs[i]);
      text := text + line;
      WrittenOne(AllLines(rs[..i]), Line(rs[i]));
    }
    assert rs[..|rs|] == rs;
  }

  method ParseTrace(lines: seq<string>) returns (rs: Option<seq<Record>>)
    ensures rs == ParseAll(Parse, lines)
  {
    var found := [];
    for i := 0 to |lines|
      invariant ParseAll(Parse, lines[..i]) == Some(found)
    {
      assert lines[..i + 1][..i] == lines[..i];
      var r := ParseRecord(lines[i]);
      if r.None? {
        ParseAllFails(Parse, lines, i + 1);
        return None;
      }
      found := found + [r.value];
    }
    assert lines[..|lines|] == lines;
    return Some(found);
  }

  lemma {:induction false} ParseAllFails<R>(parse: string -> Option<R>, lines: seq<string>, n: nat)
    requires n <= |lines| && ParseAll(parse, lines[..n]).None?
    ensures ParseAll(parse, lines).None?
    decreases |lines| - n
  {
    if n == |lines| {
      assert lines[..n] == lines;
    } else {
      assert lines[..n + 1][..n] == lines[..n];
      ParseAllFails(parse, lines, n + 1);
    }
  }

  function AllLines(rs: seq<Record>): seq<string> {
    if rs == [] then [] else AllLines(rs[..|rs| - 1]) + [Line(rs[|rs| - 1])]
  }

  function AllNormal(rs: seq<Record>): seq<Record> {
    if rs == [] then [] else AllNormal(rs[..|rs| - 1]) + [Normal(rs[|rs| - 1])]
  }

  lemma WrittenOne(lines: seq<string>, s: string)
    ensures Written(lines + [s]) == Written(lines) + (s + "\n")
  {
    assert (lines + [s])[..|lines|] == lines;
  }

  lemma {:induction false} WrittenJoins(lines: seq<string>)
    ensures Written(lines) == Join(lines + [""], '\n')
  {
    if lines != [] {
      var front, last := lines[..|lines| - 1], lines[|lines| - 1];
      WrittenJoins(front);
      JoinLast(front, last);
      assert lines + [""] == front + [last, ""];
    }
  }

  lemma LineParses(r: Record)
    ensures '\n' !in Line(r) && (Parse(Line(r)) == Some(Normal(r)) <==> WellFormed(r))
  {
    ParseOfLine(r);
    RoundTripIffWellFormed(r);
  }

  lemma {:induction false} LineAt(rs: seq<Record>, i: nat)
    requires i < |rs|
    ensures |AllLines(rs)| == |rs| && AllLines(rs)[i] == Line(rs[i])
  {
    if |rs| > 1 {
      LineAt(rs[..|rs| - 1], if i < |rs| - 1 then i else 0);
    }
  }

  lemma {:induction false} NormalAt(rs: seq<Record>, i: nat)
    requires i < |rs|
    ensures |AllNormal(rs)| == |rs| && AllNormal(rs)[i] == Normal(rs[i])
  {
    if |rs| > 1 {
      NormalAt(rs[..|rs| - 1], if i < |rs| - 1 then i else 0);
    }
  }

  lemma LinesFit(rs: seq<Record>)
    ensures |AllLines(rs)| == |AllNormal(rs)| == |rs|
    ensures Avoids(AllLines(rs), '\n')
    ensures forall i :: 0 <= i < |rs| ==> (Parse(AllLines(rs)[i]) == Some(AllNormal(rs)[i]) <==> WellFormed(rs[i]))
  {
    if rs != [] {
      LineAt(rs, 0);
      NormalAt(rs, 0);
    }
    forall i | 0 <= i < |rs|
      ensures '\n' !in AllLines(rs)[i] && (Parse(AllLines(rs)[i]) == Some(AllNormal(rs)[i]) <==> WellFormed(rs[i]))
    {
      LineAt(rs, i);
      NormalAt(rs, i);
      LineParses(rs[i]);
    }
  }

  lemma {:induction false} JoinLast(parts: seq<string>, s: string)
    ensures Join(parts + [s, ""], '\n') == Join(parts + [""], '\n') + (s + "\n")
  {
    if parts == [] {
      assert [] + [s, ""] == [s, ""] && [s, ""][1..] == [""];
      assert [] + [""] == [""];
    } else {
      JoinLast(parts[1..], s);
      assert (parts + [s, ""])[1..] == parts[1..] + [s, ""];
      assert (parts + [""])[1..] == parts[1..] + [""];
      assert Join(parts + [s, ""], '\n') == parts[0] + ['\n'] + (Join(parts[1..] + [""], '\n') + (s + "\n"));
    }
  }

  lemma {:induction false} ParseAllIff<R>(parse: string -> Option<R>, lines: seq<string>, rs: seq<R>)
    requires |lines| == |rs|
    ensures ParseAll(parse, lines) == Some(rs) <==> forall i :: 0 <= i < |rs| ==> parse(lines[i]) == Some(rs[i])
  {
    if rs != [] {
      var n := |rs| - 1;
      ParseAllIff(parse, lines[..n], rs[..n]);
      LastIs(ParseAll(parse, lines[..n]), parse(lines[n]), rs);
    }
  }

  lemma LastIs<R>(a: Option<seq<R>>, x: Option<R>, rs: seq<R>)
    requires rs != []
    ensures a.Some? && x.Some? && a.value + [x.value] == rs <==> a == Some(rs[..|rs| - 1]) && x == Some(rs[|rs| - 1])
  {
    if a.Some? && x.Some? {
      var s := a.value + [x.value];
      assert s[..|s| - 1] == a.value && s[|s| - 1] == x.value;
      assert rs == rs[..|rs| - 1] + [rs[|rs| - 1]];
    }
  }

  /** A printed trace parses back, record for record, exactly when every record has the fields of its type. */
  lemma TraceRoundTrip(rs: seq<Record>)
    ensures ParseAll(Parse, FileLines(Written(AllLines(rs)))) == Some(AllNormal(rs))
       <==> forall r :: r in rs ==> WellFormed(r)
  {
    var lines := AllLines(rs);
    LinesFit(rs);
    WrittenJoins(lines);
    SplitJoin(lines + [""], '\n');
    assert (lines + [""])[..|lines|] == lines;
    ParseAllIff(Parse, lines, AllNormal(rs));
  }
}
