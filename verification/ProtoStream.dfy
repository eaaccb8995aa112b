/**
 Length-prefixed messages in a byte stream. A length is a base-128 varint, least significant
 group first, the high bit of a byte saying that more follow; decoding narrows to 32 bits.
 */
module ProtoStream {

  import opened Basics

  // ----- Shifts and bitwise or of naturals

  function Shl(x: nat, n: nat): nat {
    if n == 0 then x else 2 * Shl(x, n - 1)
  }

  function Or(x: nat, y: nat): nat {
    if x == 0 then y else 2 * Or(x / 2, y / 2) + if x % 2 == 1 || y % 2 == 1 then 1 else 0
  }

  lemma ShlSeven(x: nat, n: nat)
    ensures Shl(x, n + 7) == 128 * Shl(x, n)
  {
    assert Shl(x, n + 7) == 2 * Shl(x, n + 6);
    assert Shl(x, n + 6) == 2 * Shl(x, n + 5);
    assert Shl(x, n + 5) == 2 * Shl(x, n + 4);
    assert Shl(x, n + 4) == 2 * Shl(x, n + 3);
    assert Shl(x, n + 3) == 2 * Shl(x, n + 2);
    assert Shl(x, n + 2) == 2 * Shl(x, n + 1);
  }

  /** Bits below the shift do not meet the shifted ones, so or is addition. */
  lemma {:induction false} OrIsSum(x: nat, y: nat, n: nat)
    requires x < Shl(1, n)
    ensures Or(x, Shl(y, n)) == x + Shl(y, n)
  {
    if n > 0 && x > 0 {
      OrIsSum(x / 2, y, n - 1);
      assert Shl(y, n) == 2 * Shl(y, n - 1);
      assert Shl(y, n) / 2 == Shl(y, n - 1) && Shl(y, n) % 2 == 0;
    }
  }

  // ----- Varints

  function Encode(v: nat): seq<Byte> {
    if v < 128 then [v] else [128 + v % 128] + Encode(v / 128)
  }

  /** The number the low seven bits of the bytes spell, least significant first. */
  function Spelled(s: seq<Byte>): nat {
    if s == [] then 0 else s[0] % 128 + 128 * Spelled(s[1..])
  }

  /** How many bytes come before the first with a clear high bit. */
  function Leading(s: seq<Byte>): (n: nat)
    ensures n <= |s|
  {
    if s == [] || s[0] < 128 then 0 else 1 + Leading(s[1..])
  }

  const TWO_32: nat := 0x1_0000_0000
  const TWO_63: nat := 0x8000_0000_0000_0000
  const TWO_64: nat := 0x1_0000_0000_0000_0000
  const TWO_70: nat := 0x40_0000_0000_0000_0000

  /** A value in the upper half of 64 bits, or beyond, comes out negative. */
  function Narrow(v: nat): int {
    if v < TWO_63 then v % TWO_32 else v % TWO_32 - TWO_32
  }

  datatype Varint = Value(value: int, pos: nat) | TooLong

  function Decode(s: seq<Byte>): Varint {
    if Leading(s) >= 10 then TooLong
    else if Leading(s) == |s| then Value(0, 0)
    else Value(Narrow(Spelled(s[..Leading(s) + 1])), Leading(s) + 1)
  }

  function Consumed(s: seq<Byte>): (n: nat)
    ensures n <= |s|
  {
    if Leading(s) >= 10 then 10 else if Leading(s) == |s| then |s| else Leading(s) + 1
  }

  lemma {:induction false} SpelledOne(s: seq<Byte>, b: Byte)
    ensures Spelled(s + [b]) == Spelled(s) + Shl(b % 128, 7 * |s|)
    ensures Spelled(s) < Shl(1, 7 * |s|)
  {
    if s == [] {
      assert ([] + [b])[1..] == [];
    } else {
      SpelledOne(s[1..], b);
      assert (s + [b])[1..] == s[1..] + [b];
      ShlSeven(b % 128, 7 * (|s| - 1));
      ShlSeven(1, 7 * (|s| - 1));
    }
  }

  lemma {:induction false} EncodeSpells(v: nat)
    ensures Spelled(Encode(v)) == v
  {
    if v < 128 {
      assert Encode(v)[1..] == [];
    } else {
      EncodeSpells(v / 128);
      assert Encode(v)[1..] == Encode(v / 128);
    }
  }

  lemma LeadingMore(b: Byte, s: seq<Byte>, rest: seq<Byte>)
    requires b >= 128
    ensures Leading([b] + s + rest) == 1 + Leading(s + rest)
  {
    assert ([b] + s + rest)[1..] == s + rest;
  }

  lemma {:induction false} EncodeLeads(v: nat, rest: seq<Byte>)
    ensures |Encode(v)| >= 1 && Leading(Encode(v) + rest) == |Encode(v)| - 1
  {
    if v < 128 {
      assert (Encode(v) + rest)[0] == v;
    } else {
      EncodeLeads(v / 128, rest);
      LeadingMore(128 + v % 128, Encode(v / 128), rest);
    }
  }

  lemma {:induction false} EncodeLength(v: nat, k: nat)
    requires k >= 1
    ensures |Encode(v)| <= k <==> v < Shl(1, 7 * k)
  {
    ShlSeven(1, 7 * (k - 1));
    if v >= 128 {
      if k > 1 {
        EncodeLength(v / 128, k - 1);
      } else {
        EncodeLeads(v / 128, []);
      }
    } else {
      ShlPositive(7 * (k - 1));
    }
  }

  lemma {:induction false} ShlPositive(n: nat)
    ensures Shl(1, n) >= 1
  {
    if n > 0 {
      ShlPositive(n - 1);
    }
  }

  function Power(k: nat): (p: nat)
    ensures p > 0
  {
    if k == 0 then 1 else 128 * Power(k - 1)
  }

  lemma {:induction false} ShlIsPower(k: nat)
    ensures Shl(1, 7 * k) == Power(k)
  {
    if k > 0 {
      ShlIsPower(k - 1);
      ShlSeven(1, 7 * (k - 1));
    }
  }

  lemma EncodeTen(v: nat)
    ensures |Encode(v)| <= 10 <==> v < TWO_70
  {
    var k := 10;
    EncodeLength(v, k);
    ShlIsPower(k);
    assert Power(10) == TWO_70;
  }

  /** Whatever follows, exactly the encoding is consumed, and the value comes back narrowed, up to seventy bits. */
  lemma DecodeEncode(v: nat, rest: seq<Byte>)
    ensures Decode(Encode(v) + rest) == if v < TWO_70 then Value(Narrow(v), |Encode(v)|) else TooLong
    ensures v < 0x8000_0000_0000_0000 ==> Decode(Encode(v) + rest) == Value(v % 0x1_0000_0000, |Encode(v)|)
    ensures 0x8000_0000_0000_0000 <= v < 0x40_0000_0000_0000_0000 ==>
      Decode(Encode(v) + rest) == Value(v % 0x1_0000_0000 - 0x1_0000_0000, |Encode(v)|)
    ensures v >= 0x40_0000_0000_0000_0000 ==> Decode(Encode(v) + rest) == TooLong
    ensures v < TWO_70 ==> Consumed(Encode(v) + rest) == |Encode(v)|
  {
    var s := Encode(v) + rest;
    EncodeLeads(v, rest);
    EncodeTen(v);
    EncodeSpells(v);
    assert s[..|Encode(v)|] == Encode(v);
  }

  /** The value itself comes back exactly when it fits in 32 bits. */
  lemma DecodesIffNarrow(v: nat, rest: seq<Byte>)
    ensures Decode(Encode(v) + rest) == Value(v, |Encode(v)|) <==> v < 0x1_0000_0000
  {
    DecodeEncode(v, rest);
  }

  /** The bytes hold seven bits each, least significant first, and all but the last have their high bit set. */
  lemma {:induction false} EncodeBytes(v: nat, i: nat)
    requires i < |Encode(v)|
    ensures Encode(v)[i] % 128 == v / Power(i) % 128
    ensures Encode(v)[i] >= 128 <==> i < |Encode(v)| - 1
  {
    if v >= 128 {
      if i > 0 {
        EncodeBytes(v / 128, i - 1);
        DivTwice(v, Power(i - 1));
      } else {
        EncodeLeads(v / 128, []);
      }
    }
  }

  lemma DivTwice(v: nat, b: nat)
    requires b > 0
    ensures v / (128 * b) == v / 128 / b
  {
    var q := v / 128;
    var p, t := q / b, q % b;
    assert q == p * b + t;
    Regroup(p, b);
    DivIs(v, p, 128 * t + v % 128, 128 * b);
  }

  lemma Regroup(p: nat, b: nat)
    ensures p * (128 * b) == 128 * (p * b)
  {
  }

  lemma DivIs(v: nat, p: nat, r: nat, m: nat)
    requires r < m && v == p * m + r
    ensures v / m == p
  {
    var e := v / m - p;
    assert v == v / m * m + v % m;
    assert e * m == r - v % m;
    assert e >= 1 ==> e * m >= m;
    assert e <= -1 ==> e * m <= -1 * m;
  }

  lemma PrefixFree(v: nat, w: nat)
    requires Encode(v) <= Encode(w)
    ensures v == w
  {
    var rest := Encode(w)[|Encode(v)|..];
    assert Encode(w) == Encode(v) + rest;
    EncodeLeads(v, rest);
    EncodeLeads(w, []);
    assert Encode(w) + [] == Encode(w);
    assert rest == [];
    EncodeSpells(v);
    EncodeSpells(w);
  }

  /** No bytes that spell a value in one group are fewer than its encoding. */
  lemma {:induction false} EncodeIsShortest(s: seq<Byte>)
    requires s != [] && Leading(s) == |s| - 1
    ensures |Encode(Spelled(s))| <= |s|
  {
    if |s| == 1 {
      assert s[1..] == [];
    } else {
      EncodeIsShortest(s[1..]);
      assert Spelled(s) / 128 == Spelled(s[1..]);
    }
  }

  lemma SpelledStep(s: seq<Byte>, pos: nat, result: nat, shift: nat)
    requires pos < |s| && result == Spelled(s[..pos]) && shift == 7 * pos
    ensures Or(result, Shl(s[pos] % 128, shift)) == Spelled(s[..pos + 1])
  {
    assert s[..pos + 1] == s[..pos] + [s[pos]];
    SpelledOne(s[..pos], s[pos]);
    OrIsSum(result, s[pos] % 128, shift);
  }

  lemma LeadingStep(s: seq<Byte>, pos: nat)
    requires pos < |s| && Leading(s) == pos + Leading(s[pos..])
    ensures Leading(s) == if s[pos] < 128 then pos else pos + 1 + Leading(s[pos + 1..])
  {
    assert s[pos..][1..] == s[pos + 1..];
  }

  /** Taking a value beyond 63 bits as negative, then keeping 32 bits of either sign. */
  function Signed(v: nat): int {
    if v > 0x7fff_ffff_ffff_ffff then (v - TWO_64) % TWO_32 - TWO_32 else v % TWO_32
  }

  lemma NarrowIsSigned(v: nat)
    ensures Narrow(v) == Signed(v)
  {
    assert (v - TWO_64) % TWO_32 == v % TWO_32;
  }

  // ----- Streams

  function Head(s: seq<Byte>, n: int): seq<Byte> {
    if n < 0 || n > |s| then s else s[..n]
  }

  /** A file: reading advances, and a negative count reads to the end; writing appends. */
  class Stream {
    var data: seq<Byte>
    var at: nat

    constructor (bytes: seq<Byte>)
      ensures Valid() && Rest() == bytes && data == bytes
    {
      data, at := bytes, 0;
    }

    ghost predicate Valid()
      reads this
    {
      at <= |data|
    }

    ghost function Rest(): seq<Byte>
      requires Valid()
      reads this
    {
      data[at..]
    }

    method Read(n: int) returns (c: seq<Byte>)
      requires Valid()
      modifies `at
      ensures Valid() && c == Head(old(Rest()), n) && Rest() == old(Rest())[|c|..]
    {
      c := Head(data[at..], n);
      at := at + |c|;
    }

    method Write(s: seq<Byte>)
      requires Valid()
      modifies `data
      ensures Valid() && data == old(data) + s
    {
      data := data + s;
    }

    method EncodeVarint(v: nat)
      requires Valid()
      modifies `data
      ensures Valid() && data == old(data) + Encode(v)
    {
      var bits := v % 128;
      var value: nat := v / 128;
      while value != 0
        invariant Valid()
        invariant data + (if value == 0 then [bits] else [128 + bits] + Encode(value)) == old(data) + Encode(v)
        invariant 0 <= bits < 128
        decreases value
      {
        Write([128 + bits]);
        bits := value % 128;
        value := value / 128;
      }
      Write([bits]);
    }

    method DecodeVarint() returns (r: Varint)
      requires Valid()
      modifies `at
      ensures Valid() && r == Decode(old(Rest())) && Rest() == old(Rest())[Consumed(old(Rest()))..]
    {
      var result, shift, pos := 0, 0, 0;
      ghost var s := Rest();
      while true
        invariant Valid() && pos <= |s| && pos < 10 && shift == 7 * pos && Rest() == s[pos..]
        invariant result == Spelled(s[..pos])
        invariant Leading(s) == pos + Leading(s[pos..])
        decreases 10 - pos
      {
        var c := Read(1);
        if |c| == 0 {
          return Value(0, 0);
        }
        var b := c[0];
        SpelledStep(s, pos, result, shift);
        LeadingStep(s, pos);
        result := Or(result, Shl(b % 128, shift));
        pos := pos + 1;
        if b < 128 {
          NarrowIsSigned(result);
          return Value(Signed(result), pos);
        }
        shift := shift + 7;
        if shift >= 64 {
          return TooLong;
        }
      }
    }

    method EncodeMessage(m: seq<Byte>)
      requires Valid()
      modifies `data
      ensures Valid() && data == old(data) + Frame(m)
    {
      EncodeVarint(|m|);
      Write(m);
    }

    method DecodeMessage() returns (r: Option<seq<Byte>>)
      requires Valid()
      modifies `at
      ensures Valid() && r == Message(old(Rest())) && Rest() == Beyond(old(Rest()))
    {
      var size := DecodeVarint();
      if size.TooLong? || size.value == 0 {
        return None;
      }
      var buf := Read(size.value);
      return Some(buf);
    }

    method EncodeMessages(msgs: seq<seq<Byte>>)
      requires Valid()
      modifies `data
      ensures Valid() && data == old(data) + Frames(msgs)
    {
      for i := 0 to |msgs|
        invariant Valid() && data == old(data) + Frames(msgs[..i])
      {
        EncodeMessage(msgs[i]);
        FramesOne(msgs[..i], msgs[i]);
        assert msgs[..i + 1] == msgs[..i] + [msgs[i]];
      }
      assert msgs[..|msgs|] == msgs;
    }

    /** Decode until there is no message. */
    method DecodeMessages() returns (msgs: seq<seq<Byte>>)
      requires Valid()
      modifies `at
      ensures Valid() && msgs == Messages(old(Rest()))
    {
      msgs := [];
      var more := true;
      ghost var s, all := Rest(), Messages(Rest());
      while more
        invariant Valid() && s == Rest()
        invariant more ==> msgs + Messages(s) == all
        invariant !more ==> msgs == all
        decreases more, |s|
      {
        MessagesStep(s, msgs, all);
        var m := DecodeMessage();
        s := Rest();
        if m.Some? {
          msgs := msgs + [m.value];
        } else {
          more := false;
        }
      }
    }
  }

  // ----- Messages

  function Frame(m: seq<Byte>): seq<Byte> {
    Encode(|m|) + m
  }

  function Frames(msgs: seq<seq<Byte>>): seq<Byte> {
    if msgs == [] then [] else Frame(msgs[0]) + Frames(msgs[1..])
  }

  lemma {:induction false} FramesOne(msgs: seq<seq<Byte>>, m: seq<Byte>)
    ensures Frames(msgs + [m]) == Frames(msgs) + Frame(m)
  {
    if msgs == [] {
      assert ([] + [m])[1..] == [];
    } else {
      FramesOne(msgs[1..], m);
      assert (msgs + [m])[1..] == msgs[1..] + [m];
    }
  }

  /** The next message: none at the end, after a zero length, or when the length is too long. */
  function Message(s: seq<Byte>): (r: Option<seq<Byte>>)
    ensures r.Some? ==> Consumed(s) > 0
  {
    var size := Decode(s);
    if size.TooLong? || size.value == 0 then None else Some(Head(s[Consumed(s)..], size.value))
  }

  function Beyond(s: seq<Byte>): seq<Byte> {
    var rest := s[Consumed(s)..];
    if Message(s).Some? then rest[|Message(s).value|..] else rest
  }

  function Messages(s: seq<Byte>): seq<seq<Byte>>
    decreases |s|
  {
    if Message(s).None? then [] else [Message(s).value] + Messages(Beyond(s))
  }

  lemma MessagesStep(s: seq<Byte>, msgs: seq<seq<Byte>>, all: seq<seq<Byte>>)
    requires msgs + Messages(s) == all
    ensures Message(s).Some? ==> |Beyond(s)| < |s| && msgs + [Message(s).value] + Messages(Beyond(s)) == all
    ensures Message(s).None? ==> msgs == all
  {
    if Message(s).Some? {
      assert msgs + [Message(s).value] + Messages(Beyond(s)) == msgs + ([Message(s).value] + Messages(Beyond(s)));
    }
  }

  /** What the first message of a written stream comes back as, whatever its length. */
  lemma FirstMessage(m: seq<Byte>, rest: seq<Byte>)
    ensures var n := |m|; var s := Frame(m) + rest;
      && Message(s) == (if n >= TWO_70 || Narrow(n) == 0 then None else Some(Head(m + rest, Narrow(n))))
      && (0 < n < TWO_32 ==> Message(s) == Some(m) && Beyond(s) == rest)
      && (TWO_63 <= n < TWO_70 ==> Message(s) == Some(m + rest) && Beyond(s) == [])
  {
    var s := Frame(m) + rest;
    assert s == Encode(|m|) + (m + rest);
    DecodeEncode(|m|, m + rest);
    if |m| < TWO_70 {
      assert s[|Encode(|m|)|..] == m + rest;
      if 0 < |m| < TWO_32 {
        assert (m + rest)[..|m|] == m && (m + rest)[|m|..] == rest;
      }
    }
  }

  /** The messages before the first empty one. */
  function BeforeEmpty(msgs: seq<seq<Byte>>): seq<seq<Byte>> {
    if msgs == [] || msgs[0] == [] then [] else [msgs[0]] + BeforeEmpty(msgs[1..])
  }

  lemma {:induction false} ReadsBeforeEmpty(msgs: seq<seq<Byte>>)
    requires forall m :: m in msgs ==> |m| < TWO_32
    ensures Messages(Frames(msgs)) == BeforeEmpty(msgs)
  {
    if msgs != [] {
      FirstMessage(msgs[0], Frames(msgs[1..]));
      if msgs[0] != [] {
        ReadsBeforeEmpty(msgs[1..]);
      }
    }
  }

  /** Lengths that survive: 32 bits and not zero, or a last one so long that it reads as negative, hence to the end. */
  predicate Survives(msgs: seq<seq<Byte>>) {
    forall i :: 0 <= i < |msgs| ==> 0 < |msgs[i]| < TWO_32 || (i == |msgs| - 1 && TWO_63 <= |msgs[i]| < TWO_70)
  }

  lemma SurvivesTail(msgs: seq<seq<Byte>>)
    requires msgs != []
    ensures Survives(msgs) <==> (if 0 < |msgs[0]| < TWO_32 then Survives(msgs[1..])
                                 else |msgs| == 1 && TWO_63 <= |msgs[0]| < TWO_70)
  {
    if Survives(msgs) && 0 < |msgs[0]| < TWO_32 {
      assert forall i :: 0 <= i < |msgs| - 1 ==> msgs[1..][i] == msgs[i + 1];
    }
    if 0 < |msgs[0]| < TWO_32 && Survives(msgs[1..]) {
      assert forall i :: 1 <= i < |msgs| ==> msgs[i] == msgs[1..][i - 1];
    }
  }

  lemma FramesNonempty(msgs: seq<seq<Byte>>)
    requires msgs != []
    ensures Frames(msgs) != []
  {
    EncodeLeads(|msgs[0]|, []);
  }

  // One lemma for each class of lengths of the first message.

  predicate Short(m: seq<Byte>) {
    0 < |m| < TWO_32
  }

  predicate Endless(m: seq<Byte>) {
    TWO_63 <= |m| < TWO_70
  }

  lemma NoneFirst()
    ensures Messages(Frames([])) == []
  {
  }

  lemma ConsCancels<T>(a: T, x: seq<T>, y: seq<T>)
    ensures [a] + x == [a] + y <==> x == y
  {
    assert ([a] + x)[1..] == x && ([a] + y)[1..] == y;
  }

  lemma ShortFirst(msgs: seq<seq<Byte>>)
    requires msgs != [] && Short(msgs[0])
    ensures Messages(Frames(msgs)) == msgs <==> Messages(Frames(msgs[1..])) == msgs[1..]
  {
    FirstMessage(msgs[0], Frames(msgs[1..]));
    assert msgs == [msgs[0]] + msgs[1..];
    ConsCancels(msgs[0], Messages(Frames(msgs[1..])), msgs[1..]);
  }

  lemma EndlessFirst(msgs: seq<seq<Byte>>)
    requires msgs != [] && Endless(msgs[0])
    ensures Messages(Frames(msgs)) == msgs <==> |msgs| == 1
  {
    var m, rest := msgs[0], Frames(msgs[1..]);
    FirstMessage(m, rest);
    if |msgs| > 1 {
      FramesNonempty(msgs[1..]);
      assert |m + rest| > |m|;
    } else {
      assert m + rest == m;
    }
  }

  lemma OtherFirst(msgs: seq<seq<Byte>>)
    requires msgs != [] && !Short(msgs[0]) && !Endless(msgs[0])
    ensures Messages(Frames(msgs)) != msgs
  {
    FirstMessage(msgs[0], Frames(msgs[1..]));
  }

  /** Writing messages and decoding until none is left gives them all back exactly when their lengths survive. */
  lemma {:induction false} RoundTripIffSurvives(msgs: seq<seq<Byte>>)
    ensures Messages(Frames(msgs)) == msgs <==> Survives(msgs)
  {
    if msgs == [] {
      NoneFirst();
    } else {
      SurvivesTail(msgs);
      if Short(msgs[0]) {
        ShortFirst(msgs);
        RoundTripIffSurvives(msgs[1..]);
      } else if Endless(msgs[0]) {
        EndlessFirst(msgs);
      } else {
        OtherFirst(msgs);
      }
    }
  }
}
