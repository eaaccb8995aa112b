/** Decimal numbers, splitting at a separator and stripping of blanks, as the scripts' strings do them. */
module Text {

  import opened Basics

  // ----- Decimal numbers

  predicate IsDigit(c: char) {
    '0' <= c <= '9'
  }

  function Digit(d: nat): char
    requires d < 10
  {
    (('0' as int) + d) as char
  }

  function Digits(n: nat): string {
    if n < 10 then [Digit(n)] else Digits(n / 10) + [Digit(n % 10)]
  }

  predicate AllDigits(s: string) {
    forall i :: 0 <= i < |s| ==> IsDigit(s[i])
  }

  function Number(s: string): nat
    requires AllDigits(s)
  {
    if s == [] then 0 else 10 * Number(s[..|s| - 1]) + (s[|s| - 1] as int - '0' as int)
  }

  /** A number written in decimal digits only. */
  function ParseNat(s: string): Option<nat> {
    if s == [] || !AllDigits(s) then None else Some(Number(s))
  }

  lemma {:induction false} DigitsParse(n: nat)
    ensures AllDigits(Digits(n)) && Digits(n) != [] && ParseNat(Digits(n)) == Some(n)
  {
    if n < 10 {
      var s := Digits(n);
      assert s[..|s| - 1] == [] && s[0] as int - '0' as int == n;
      assert Number(s) == 10 * Number([]) + n;
    } else {
      DigitsParse(n / 10);
      assert Digits(n)[..|Digits(n)| - 1] == Digits(n / 10);
    }
  }

  // ----- Splitting

  function Split(s: string, sep: char): (r: seq<string>)
    ensures r != []
  {
    if s == [] then [[]]
    else
      var rest := Split(s[1..], sep);
      if s[0] == sep then [[]] + rest else [[s[0]] + rest[0]] + rest[1..]
  }

  function Join(parts: seq<string>, sep: char): string {
    if parts == [] then [] else if |parts| == 1 then parts[0] else parts[0] + [sep] + Join(parts[1..], sep)
  }

  lemma {:induction false} SplitWhole(s: string, sep: char)
    requires sep !in s
    ensures Split(s, sep) == [s]
  {
    if s != [] {
      SplitWhole(s[1..], sep);
      assert s == [s[0]] + s[1..];
    }
  }

  lemma {:induction false} SplitFirst(a: string, b: string, sep: char)
    requires sep !in a
    ensures Split(a + [sep] + b, sep) == [a] + Split(b, sep)
  {
    var s := a + [sep] + b;
    if a == [] {
      assert s[1..] == b;
    } else {
      SplitFirst(a[1..], b, sep);
      assert s[1..] == a[1..] + [sep] + b;
      assert a == [a[0]] + a[1..];
    }
  }

  ghost predicate Avoids(parts: seq<string>, sep: char) {
    forall i :: 0 <= i < |parts| ==> sep !in parts[i]
  }

  lemma {:induction false} SplitJoin(parts: seq<string>, sep: char)
    requires parts != [] && Avoids(parts, sep)
    ensures Split(Join(parts, sep), sep) == parts
  {
    if |parts| == 1 {
      SplitWhole(parts[0], sep);
      assert parts == [parts[0]];
    } else {
      SplitJoin(parts[1..], sep);
      SplitFirst(parts[0], Join(parts[1..], sep), sep);
      assert parts == [parts[0]] + parts[1..];
    }
  }

  lemma {:induction false} JoinAvoids(parts: seq<string>, sep: char, c: char)
    requires Avoids(parts, c) && c != sep
    ensures c !in Join(parts, sep)
  {
    if |parts| > 1 {
      JoinAvoids(parts[1..], sep, c);
    }
  }

  lemma {:induction false} SplitJoins(s: string, sep: char)
    ensures Avoids(Split(s, sep), sep) && Join(Split(s, sep), sep) == s
  {
    if s != [] {
      var rest := Split(s[1..], sep);
      SplitJoins(s[1..], sep);
      assert s == [s[0]] + s[1..];
      if s[0] == sep {
        assert ([[]] + rest)[1..] == rest;
      } else {
        assert ([[s[0]] + rest[0]] + rest[1..])[1..] == rest[1..];
        assert [s[0]] + (rest[0] + [sep] + Join(rest[1..], sep)) == [s[0]] + rest[0] + [sep] + Join(rest[1..], sep);
      }
    }
  }

  /** The pieces are the only ones without the separator that make up the text with it. */
  lemma SplitIff(s: string, sep: char, parts: seq<string>)
    ensures Split(s, sep) == parts <==> parts != [] && Avoids(parts, sep) && Join(parts, sep) == s
  {
    SplitJoins(s, sep);
    if parts != [] && Avoids(parts, sep) {
      SplitJoin(parts, sep);
    }
  }

  // ----- Stripping

  predicate IsBlank(c: char) {
    c == ' ' || '\t' <= c <= '\r'
  }

  function StripLeft(s: string): string {
    if s != [] && IsBlank(s[0]) then StripLeft(s[1..]) else s
  }

  function StripRight(s: string): string {
    if s != [] && IsBlank(s[|s| - 1]) then StripRight(s[..|s| - 1]) else s
  }

  function Strip(s: string): string {
    StripRight(StripLeft(s))
  }

  /** A line without blanks, with or without its newline, strips to itself. */
  lemma StripLine(s: string)
    requires forall i :: 0 <= i < |s| ==> !IsBlank(s[i])
    ensures Strip(s) == s && Strip(s + "\n") == s
  {
    assert (s + "\n")[..|s|] == s;
    if s == [] {
      assert (s + "\n")[1..] == [];
    }
  }

  ghost predicate Blanks(s: string) {
    forall i :: 0 <= i < |s| ==> IsBlank(s[i])
  }

  /** Nothing more to strip. */
  predicate Trimmed(s: string) {
    s == "" || (!IsBlank(s[0]) && !IsBlank(s[|s| - 1]))
  }

  lemma {:induction false} StripLeftTakes(s: string) returns (b: string)
    ensures s == b + StripLeft(s) && Blanks(b) && (StripLeft(s) == "" || !IsBlank(StripLeft(s)[0]))
  {
    if s != [] && IsBlank(s[0]) {
      var c := StripLeftTakes(s[1..]);
      b := [s[0]] + c;
      assert s == [s[0]] + s[1..];
    } else {
      b := "";
    }
  }

  lemma {:induction false} StripLeftOf(b: string, t: string)
    requires Blanks(b) && (t == "" || !IsBlank(t[0]))
    ensures StripLeft(b + t) == t
  {
    if b == "" {
      assert b + t == t;
    } else {
      StripLeftOf(b[1..], t);
      assert (b + t)[1..] == b[1..] + t;
    }
  }

  lemma {:induction false} StripRightTakes(s: string) returns (e: string)
    ensures s == StripRight(s) + e && Blanks(e) && (StripRight(s) == "" || !IsBlank(StripRight(s)[|StripRight(s)| - 1]))
  {
    if s != [] && IsBlank(s[|s| - 1]) {
      var c := StripRightTakes(s[..|s| - 1]);
      e := c + [s[|s| - 1]];
      assert s == s[..|s| - 1] + [s[|s| - 1]];
    } else {
      e := "";
    }
  }

  lemma {:induction false} StripRightOf(t: string, e: string)
    requires Blanks(e) && (t == "" || !IsBlank(t[|t| - 1]))
    ensures StripRight(t + e) == t
  {
    if e == "" {
      assert t + e == t;
    } else {
      StripRightOf(t, e[..|e| - 1]);
      assert (t + e)[..|t + e| - 1] == t + e[..|e| - 1];
    }
  }

  lemma StripTakes(s: string) returns (b: string, e: string)
    ensures s == b + Strip(s) + e && Blanks(b) && Blanks(e) && Trimmed(Strip(s))
  {
    var left := StripLeft(s);
    b := StripLeftTakes(s);
    e := StripRightTakes(left);
    var t := StripRight(left);
    assert b + (t + e) == b + t + e;
    assert t != "" ==> t[0] == left[0];
  }

  lemma StripOf(b: string, t: string, e: string)
    requires Blanks(b) && Blanks(e) && Trimmed(t)
    ensures Strip(b + t + e) == t
  {
    assert b + t + e == b + (t + e);
    if t == "" {
      assert b + t + e == (b + e) + "";
      StripLeftOf(b + e, "");
    } else {
      StripLeftOf(b, t + e);
      StripRightOf(t, e);
    }
  }

  // ----- Dictionary order

  /** `a` comes before `b` in a dictionary: at the first place where they differ it ends or has the smaller character. */
  ghost predicate Lexical(a: string, b: string) {
    exists k: nat :: k <= |a| && k < |b| && a[..k] == b[..k] && (k == |a| || a[k] < b[k])
  }

  // ----- Integers

  predicate IsSign(c: char) {
    c == '+' || c == '-'
  }

  /** Digits, with the suffix of a long integer if that is allowed. */
  function Magnitude(s: string, suffix: bool): Option<nat> {
    if suffix && s != [] && (s[|s| - 1] == 'l' || s[|s| - 1] == 'L') then ParseNat(s[..|s| - 1]) else ParseNat(s)
  }

  /** An integer as the scripts convert it: blanks around it and after a sign, and a suffix if that is allowed. */
  function ParseInteger(text: string, suffix: bool): Option<int> {
    var s := Strip(text);
    if s != [] && IsSign(s[0]) then
      var m := Magnitude(StripLeft(s[1..]), suffix);
      if m.None? then None else var v: int := m.value; Some(if s[0] == '-' then -v else v)
    else Magnitude(s, suffix)
  }

  lemma DigitsAreInteger(n: nat, suffix: bool)
    ensures ParseInteger(Digits(n), suffix) == Some(n)
  {
    DigitsParse(n);
    StripLine(Digits(n));
  }

  /** Digits with something else among them, and no sign in front, are no integer. */
  lemma NotAnInteger(s: string, i: nat)
    requires i < |s| - 1 && !IsDigit(s[i]) && IsDigit(s[0]) && Strip(s) == s
    ensures ParseInteger(s, false).None?
  {
  }

  /** `ds` are digits, `v` is their number with the sign, and the text is these with blanks and a suffix in the right places. */
  ghost predicate Spells(text: string, suffix: bool, v: int, sign: string, gap: string, ds: string, l: string) {
    && sign in {"", "+", "-"} && Blanks(gap) && (sign == "" ==> gap == "") && ds != "" && AllDigits(ds)
    && (l == "" || (suffix && l in {"l", "L"})) && Strip(text) == sign + gap + ds + l
    && v == (if sign == "-" then -1 else 1) * Number(ds)
  }

  ghost predicate IsIntegerText(text: string, suffix: bool, v: int) {
    exists sign, gap, ds, l :: Spells(text, suffix, v, sign, gap, ds, l)
  }

  lemma MagnitudeOf(ds: string, l: string, suffix: bool)
    requires ds != "" && AllDigits(ds) && (l == "" || (suffix && l in {"l", "L"}))
    ensures Magnitude(ds + l, suffix) == Some(Number(ds))
  {
    if l == "" {
      assert ds + l == ds;
    } else {
      assert (ds + l)[..|ds + l| - 1] == ds;
    }
  }

  lemma MagnitudeIs(s: string, suffix: bool) returns (ds: string, l: string)
    requires Magnitude(s, suffix).Some?
    ensures s == ds + l && ds != "" && AllDigits(ds) && (l == "" || (suffix && l in {"l", "L"}))
    ensures Magnitude(s, suffix) == Some(Number(ds))
  {
    if suffix && s != [] && (s[|s| - 1] == 'l' || s[|s| - 1] == 'L') {
      ds, l := s[..|s| - 1], [s[|s| - 1]];
    } else {
      ds, l := s, "";
    }
  }

  lemma IntegerIsText(text: string, suffix: bool)
    requires ParseInteger(text, suffix).Some?
    ensures IsIntegerText(text, suffix, ParseInteger(text, suffix).value)
  {
    var s := Strip(text);
    if s != [] && IsSign(s[0]) {
      var gap := StripLeftTakes(s[1..]);
      var ds, l := MagnitudeIs(StripLeft(s[1..]), suffix);
      assert s == [s[0]] + gap + ds + l;
      assert Spells(text, suffix, ParseInteger(text, suffix).value, [s[0]], gap, ds, l);
    } else {
      var ds, l := MagnitudeIs(s, suffix);
      assert s == "" + "" + ds + l;
      assert Spells(text, suffix, ParseInteger(text, suffix).value, "", "", ds, l);
    }
  }

  lemma TextIsInteger(text: string, suffix: bool, v: int, sign: string, gap: string, ds: string, l: string)
    requires Spells(text, suffix, v, sign, gap, ds, l)
    ensures ParseInteger(text, suffix) == Some(v)
  {
    var s := Strip(text);
    MagnitudeOf(ds, l, suffix);
    if sign == "" {
      assert s == ds + l && s[0] == ds[0];
    } else {
      assert s[1..] == gap + (ds + l) && s[0] == sign[0] && (ds + l)[0] == ds[0];
      StripLeftOf(gap, ds + l);
    }
  }

  /** Exactly which texts are integers, and which. */
  lemma IntegerIff(text: string, suffix: bool, v: int)
    ensures ParseInteger(text, suffix) == Some(v) <==> IsIntegerText(text, suffix, v)
  {
    if ParseInteger(text, suffix).Some? {
      IntegerIsText(text, suffix);
    }
    if sign, gap, ds, l :| Spells(text, suffix, v, sign, gap, ds, l) {
      TextIsInteger(text, suffix, v, sign, gap, ds, l);
    }
  }
}
