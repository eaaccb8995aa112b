/**
 Binding ports from a configuration: every connection is listed in both directions, and one
 sorted pass binds each in one direction so that vector ports, which only grow by appending,
 get their peers at the configured indices.
 */
module PortBinding {
  import opened Text

  datatype Key = Key(obj: string, port: string)

  datatype Port = Port(key: Key, index: nat)

  datatype Conn = Conn(from: Port, to: Port) {
    function Back(): Conn {
      Conn(to, from)
    }

    predicate Has(p: Port) {
      from == p || to == p
    }
  }

  // ----- Sorting the connections

  predicate StringLE(a: string, b: string) {
    a == [] || (b != [] && (a[0] < b[0] || (a[0] == b[0] && StringLE(a[1..], b[1..]))))
  }

  /** Order by object name, then port name, then index. */
  predicate PortLE(a: Port, b: Port) {
    if a.key.obj != b.key.obj then StringLE(a.key.obj, b.key.obj)
    else if a.key.port != b.key.port then StringLE(a.key.port, b.key.port)
    else a.index <= b.index
  }

  predicate ConnLE(a: Conn, b: Conn) {
    if a.from != b.from then PortLE(a.from, b.from) else PortLE(a.to, b.to)
  }

  lemma {:induction false} StringTotal(a: string, b: string)
    ensures StringLE(a, b) || StringLE(b, a)
    ensures StringLE(a, b) && StringLE(b, a) ==> a == b
  {
    if a != [] && b != [] {
      StringTotal(a[1..], b[1..]);
      assert a == [a[0]] + a[1..] && b == [b[0]] + b[1..];
    }
  }

  lemma {:induction false} StringTransitive(a: string, b: string, c: string)
    requires StringLE(a, b) && StringLE(b, c)
    ensures StringLE(a, c)
  {
    if a != [] && a[0] == b[0] == c[0] {
      StringTransitive(a[1..], b[1..], c[1..]);
    }
  }

  lemma PortOrder(a: Port, b: Port, c: Port)
    ensures PortLE(a, b) || PortLE(b, a)
    ensures PortLE(a, b) && PortLE(b, a) ==> a == b
    ensures PortLE(a, b) && PortLE(b, c) ==> PortLE(a, c)
  {
    StringTotal(a.key.obj, b.key.obj);
    StringTotal(a.key.port, b.key.port);
    StringTotal(b.key.obj, c.key.obj);
    StringTotal(b.key.port, c.key.port);
    if StringLE(a.key.obj, b.key.obj) && StringLE(b.key.obj, c.key.obj) {
      StringTransitive(a.key.obj, b.key.obj, c.key.obj);
    }
    if StringLE(a.key.port, b.key.port) && StringLE(b.key.port, c.key.port) {
      StringTransitive(a.key.port, b.key.port, c.key.port);
    }
  }

  lemma ConnOrder(a: Conn, b: Conn, c: Conn)
    ensures ConnLE(a, b) || ConnLE(b, a)
    ensures ConnLE(a, b) && ConnLE(b, c) ==> ConnLE(a, c)
  {
    PortOrder(a.from, b.from, c.from);
    PortOrder(b.from, c.from, a.from);
    PortOrder(a.to, b.to, c.to);
    PortOrder(b.to, c.to, a.to);
  }

  ghost predicate Sorted(s: seq<Conn>) {
    forall i, j :: 0 <= i < j < |s| ==> ConnLE(s[i], s[j])
  }

  lemma LexicalTail(a: string, b: string)
    requires a != [] && b != [] && a[0] == b[0]
    ensures Lexical(a, b) <==> Lexical(a[1..], b[1..])
  {
    var x, y := a[1..], b[1..];
    if k: nat :| k <= |x| && k < |y| && x[..k] == y[..k] && (k == |x| || x[k] < y[k]) {
      assert a[..k + 1] == [a[0]] + x[..k] && b[..k + 1] == [b[0]] + y[..k];
    }
    if k: nat :| k <= |a| && k < |b| && a[..k] == b[..k] && (k == |a| || a[k] < b[k]) {
      assert x[..k - 1] == a[..k][1..] && y[..k - 1] == b[..k][1..];
    }
  }

  lemma LexicalHead(a: string, b: string)
    requires a != [] && b != [] && a[0] != b[0]
    ensures Lexical(a, b) <==> a[0] < b[0]
  {
    assert a[..0] == b[..0];
    assert forall k: nat :: 0 < k <= |a| && k < |b| && a[..k] == b[..k] ==> a[..k][0] == b[..k][0];
  }

  lemma {:induction false} StringLEIsLexical(a: string, b: string)
    ensures StringLE(a, b) <==> a == b || Lexical(a, b)
  {
    if a == [] {
      assert b != [] ==> a[..0] == b[..0];
    } else if b != [] && a[0] == b[0] {
      StringLEIsLexical(a[1..], b[1..]);
      LexicalTail(a, b);
      assert a == [a[0]] + a[1..] && b == [b[0]] + b[1..];
    } else if b != [] {
      LexicalHead(a, b);
    }
  }

  /** Dictionary order of object names, then of port names, then the indices. */
  ghost predicate ByName(p: Port, q: Port) {
    || Lexical(p.key.obj, q.key.obj)
    || (p.key.obj == q.key.obj && Lexical(p.key.port, q.key.port))
    || (p.key == q.key && p.index < q.index)
  }

  /** Connections in the order of their first ends, then of their second. */
  ghost predicate InNameOrder(s: seq<Conn>) {
    forall i, j :: 0 <= i < j < |s| ==>
      s[i] == s[j] || ByName(s[i].from, s[j].from) || (s[i].from == s[j].from && ByName(s[i].to, s[j].to))
  }

  lemma PortLEIsByName(p: Port, q: Port)
    ensures PortLE(p, q) <==> p == q || ByName(p, q)
  {
    StringLEIsLexical(p.key.obj, q.key.obj);
    StringLEIsLexical(p.key.port, q.key.port);
    LexicalDiffers(p.key.obj, q.key.obj);
    LexicalDiffers(p.key.port, q.key.port);
    assert p.key == q.key <==> p.key.obj == q.key.obj && p.key.port == q.key.port;
  }

  lemma LexicalDiffers(a: string, b: string)
    ensures Lexical(a, b) ==> a != b
  {
  }

  /** The pass goes through the connections in the order of their names. */
  lemma PassIsInNameOrder(conns: seq<Conn>)
    ensures InNameOrder(SortConns(conns)) && multiset(SortConns(conns)) == multiset(conns)
  {
    var s := SortConns(conns);
    SortIsSorted(conns);
    forall i, j | 0 <= i < j < |s|
      ensures s[i] == s[j] || ByName(s[i].from, s[j].from) || (s[i].from == s[j].from && ByName(s[i].to, s[j].to))
    {
      assert ConnLE(s[i], s[j]);
      PortLEIsByName(s[i].from, s[j].from);
      PortLEIsByName(s[i].to, s[j].to);
    }
  }

  function Insert(s: seq<Conn>, c: Conn): seq<Conn> {
    if s == [] || ConnLE(s[|s| - 1], c) then s + [c] else Insert(s[..|s| - 1], c) + [s[|s| - 1]]
  }

  function SortConns(s: seq<Conn>): seq<Conn> {
    if s == [] then [] else Insert(SortConns(s[..|s| - 1]), s[|s| - 1])
  }

  lemma {:induction false} InsertContents(s: seq<Conn>, c: Conn)
    ensures multiset(Insert(s, c)) == multiset(s) + multiset{c}
  {
    if !(s == [] || ConnLE(s[|s| - 1], c)) {
      InsertContents(s[..|s| - 1], c);
      assert s == s[..|s| - 1] + [s[|s| - 1]];
    }
  }

  lemma AllBefore(s: seq<Conn>, last: Conn, c: Conn, r: seq<Conn>)
    requires (forall x :: x in s ==> ConnLE(x, last)) && !ConnLE(last, c) && multiset(r) == multiset(s) + multiset{c}
    ensures forall i :: 0 <= i < |r| ==> ConnLE(r[i], last)
  {
    ConnOrder(c, last, c);
    forall i | 0 <= i < |r|
      ensures ConnLE(r[i], last)
    {
      assert r[i] in multiset(r);
      assert r[i] in s || r[i] == c;
    }
  }

  lemma {:induction false} InsertIsSorted(s: seq<Conn>, c: Conn)
    requires Sorted(s)
    ensures Sorted(Insert(s, c))
  {
    if s == [] {
    } else if ConnLE(s[|s| - 1], c) {
      forall i | 0 <= i < |s|
        ensures ConnLE(s[i], c)
      {
        ConnOrder(s[i], s[|s| - 1], c);
      }
    } else {
      var front, last := s[..|s| - 1], s[|s| - 1];
      InsertIsSorted(front, c);
      InsertContents(front, c);
      AllBefore(front, last, c, Insert(front, c));
    }
  }

  lemma {:induction false} SortIsSorted(s: seq<Conn>)
    ensures Sorted(SortConns(s)) && multiset(SortConns(s)) == multiset(s)
  {
    if s != [] {
      SortIsSorted(s[..|s| - 1]);
      InsertIsSorted(SortConns(s[..|s| - 1]), s[|s| - 1]);
      InsertContents(SortConns(s[..|s| - 1]), s[|s| - 1]);
      assert s == s[..|s| - 1] + [s[|s| - 1]];
    }
  }

  // ----- The pass

  type Counters = map<Key, nat>

  datatype Pass = Pass(next: Counters, made: seq<Conn>)

  /** The keys of the `from` ports; the others have no counter. */
  function FromKeys(conns: seq<Conn>): set<Key> {
    set c | c in conns :: c.from.key
  }

  function Start(conns: seq<Conn>): Counters {
    map k | k in FromKeys(conns) :: 0
  }

  predicate Fits(next: Counters, p: Port) {
    p.key in next && next[p.key] == p.index
  }

  function Count(next: Counters, p: Port): Counters
    requires p.key in next
  {
    next[p.key := next[p.key] + 1]
  }

  function Try(st: Pass, c: Conn): Pass {
    if Fits(st.next, c.from) && Fits(st.next, c.to)
    then Pass(Count(Count(st.next, c.from), c.to), st.made + [c])
    else st
  }

  /** After the first `n` connections of the sorted list. */
  function After(conns: seq<Conn>, order: seq<Conn>, n: nat): Pass
    requires n <= |order|
  {
    if n == 0 then Pass(Start(conns), []) else Try(After(conns, order, n - 1), order[n - 1])
  }

  /** What the pass over the sorted list makes. */
  function Made(conns: seq<Conn>): seq<Conn> {
    After(conns, SortConns(conns), |SortConns(conns)|).made
  }

  datatype Outcome = Bound(made: seq<Conn>) | Raised

  /** Every connection is listed with both orderings. */
  ghost predicate Symmetric(conns: seq<Conn>) {
    forall c :: c in conns ==> c.Back() in conns
  }

  // ----- Replaying the bindings

  /** The peers of each vector port, in the order in which they were appended. */
  type Vectors = map<Key, seq<Port>>

  function Peers(v: Vectors, k: Key): seq<Port> {
    if k in v then v[k] else []
  }

  function Append(v: Vectors, k: Key, p: Port): Vectors {
    v[k := Peers(v, k) + [p]]
  }

  /** Each binding appends the peer on both sides. */
  function Bind(v: Vectors, c: Conn): Vectors {
    Append(Append(v, c.from.key, c.to), c.to.key, c.from)
  }

  function Replay(made: seq<Conn>): Vectors {
    if made == [] then map[] else Bind(Replay(made[..|made| - 1]), made[|made| - 1])
  }

  /** `q` stands at the index of port `p`. */
  predicate Placed(v: Vectors, p: Port, q: Port) {
    p.index < |Peers(v, p.key)| && Peers(v, p.key)[p.index] == q
  }

  predicate PlacedBoth(v: Vectors, c: Conn) {
    Placed(v, c.from, c.to) && Placed(v, c.to, c.from)
  }

  predicate Apart(a: Conn, b: Conn) {
    a.from != b.from && a.from != b.to && a.to != b.from && a.to != b.to
  }

  /** Port `i` of `k` is an end of some binding made. */
  ghost predicate Taken(made: seq<Conn>, p: Port) {
    exists q :: 0 <= q < |made| && made[q].Has(p)
  }

  /** The counters are the lengths of the vectors. */
  ghost predicate Lengths(v: Vectors, next: Counters) {
    forall k :: |Peers(v, k)| == if k in next then next[k] else 0
  }

  /** Every binding made has each peer at the index the other configures. */
  ghost predicate AllPlaced(v: Vectors, made: seq<Conn>) {
    forall c :: c in made ==> PlacedBoth(v, c)
  }

  /** The indices below a counter are those of the bindings made, and no others are. */
  ghost predicate CountsTaken(made: seq<Conn>, next: Counters) {
    forall p: Port :: (p.key in next && p.index < next[p.key]) <==> Taken(made, p)
  }

  /** No port is bound twice. */
  ghost predicate AllApart(made: seq<Conn>) {
    forall i, j :: 0 <= i < j < |made| ==> Apart(made[i], made[j])
  }

  ghost predicate WellBound(st: Pass) {
    && Lengths(Replay(st.made), st.next)
    && AllPlaced(Replay(st.made), st.made)
    && CountsTaken(st.made, st.next)
    && AllApart(st.made)
  }

  lemma BindPlaces(v: Vectors, c: Conn)
    requires c.from.key != c.to.key && |Peers(v, c.from.key)| == c.from.index && |Peers(v, c.to.key)| == c.to.index
    ensures PlacedBoth(Bind(v, c), c)
    ensures forall k :: |Peers(Bind(v, c), k)| == |Peers(v, k)| + if k == c.from.key || k == c.to.key then 1 else 0
    ensures forall d :: PlacedBoth(v, d) ==> PlacedBoth(Bind(v, c), d)
  {
  }

  lemma TakenGrows(made: seq<Conn>, c: Conn, p: Port)
    ensures Taken(made + [c], p) <==> Taken(made, p) || c.Has(p)
  {
    var all := made + [c];
    if Taken(made, p) {
      var q :| 0 <= q < |made| && made[q].Has(p);
      assert all[q].Has(p);
    }
    if c.Has(p) {
      assert all[|made|].Has(p);
    }
    if Taken(all, p) {
      var q :| 0 <= q < |all| && all[q].Has(p);
      assert q < |made| ==> made[q].Has(p);
    }
  }

  lemma CountKeepsTaken(made: seq<Conn>, next: Counters, c: Conn)
    requires CountsTaken(made, next) && Fits(next, c.from) && Fits(next, c.to) && c.from != c.to
    ensures CountsTaken(made + [c], Count(Count(next, c.from), c.to))
  {
    var next' := Count(Count(next, c.from), c.to);
    forall p: Port
      ensures (p.key in next' && p.index < next'[p.key]) <==> Taken(made + [c], p)
    {
      TakenGrows(made, c, p);
    }
  }

  lemma FitsIsApart(made: seq<Conn>, next: Counters, c: Conn)
    requires CountsTaken(made, next) && Fits(next, c.from) && Fits(next, c.to) && AllApart(made)
    ensures AllApart(made + [c])
  {
    forall i | 0 <= i < |made|
      ensures Apart(made[i], c)
    {
      assert made[i].Has(made[i].from) && made[i].Has(made[i].to);
      assert Taken(made, made[i].from) && Taken(made, made[i].to);
    }
  }

  lemma BindKeepsPlaces(v: Vectors, made: seq<Conn>, next: Counters, c: Conn)
    requires Lengths(v, next) && AllPlaced(v, made) && Fits(next, c.from) && Fits(next, c.to) && c.from != c.to
    ensures Lengths(Bind(v, c), Count(Count(next, c.from), c.to)) && AllPlaced(Bind(v, c), made + [c])
  {
    BindPlaces(v, c);
  }

  lemma TryKeepsWellBound(st: Pass, c: Conn)
    requires WellBound(st) && c.from != c.to
    ensures WellBound(Try(st, c)) && Try(st, c).next.Keys == st.next.Keys
  {
    if Fits(st.next, c.from) && Fits(st.next, c.to) {
      CountKeepsTaken(st.made, st.next, c);
      FitsIsApart(st.made, st.next, c);
      BindKeepsPlaces(Replay(st.made), st.made, st.next, c);
      ReplayOne(st.made, c);
    }
  }

  lemma ReplayOne(made: seq<Conn>, c: Conn)
    ensures Replay(made + [c]) == Bind(Replay(made), c)
  {
    assert (made + [c])[..|made|] == made;
  }

  ghost predicate NoLoops(conns: seq<Conn>) {
    forall c :: c in conns ==> c.from != c.to
  }

  lemma {:induction false} PassIsWellBound(conns: seq<Conn>, order: seq<Conn>, n: nat)
    requires n <= |order| && NoLoops(order)
    ensures WellBound(After(conns, order, n)) && After(conns, order, n).next.Keys == FromKeys(conns)
  {
    if n > 0 {
      PassIsWellBound(conns, order, n - 1);
      assert order[n - 1] in order;
      TryKeepsWellBound(After(conns, order, n - 1), order[n - 1]);
    }
  }

  lemma {:induction false} MadeFrom(conns: seq<Conn>, order: seq<Conn>, n: nat)
    requires n <= |order|
    ensures forall c :: c in After(conns, order, n).made ==> c in order[..n]
  {
    if n > 0 {
      MadeFrom(conns, order, n - 1);
      assert order[..n] == order[..n - 1] + [order[n - 1]];
    }
  }

  // ----- Success means every connection, once

  /** Listed both ways, each indexed port having exactly one peer, which is another port. */
  ghost predicate Peered(conns: seq<Conn>) {
    && Symmetric(conns)
    && NoLoops(conns)
    && (forall i, j :: 0 <= i < j < |conns| ==> conns[i].from != conns[j].from)
  }

  lemma SameFrom(conns: seq<Conn>, c: Conn, d: Conn)
    requires Peered(conns) && c in conns && d in conns && c.from == d.from
    ensures c == d
  {
  }

  function Sources(s: seq<Conn>): set<Port> {
    set c | c in s :: c.from
  }

  function Ends(s: seq<Conn>): set<Port> {
    if s == [] then {} else Ends(s[..|s| - 1]) + {s[|s| - 1].from, s[|s| - 1].to}
  }

  lemma {:induction false} SourcesCount(s: seq<Conn>)
    requires forall i, j :: 0 <= i < j < |s| ==> s[i].from != s[j].from
    ensures |Sources(s)| == |s|
  {
    if s != [] {
      var front, last := s[..|s| - 1], s[|s| - 1];
      SourcesCount(front);
      assert Sources(s) == Sources(front) + {last.from};
      assert last.from !in Sources(front);
    }
  }

  lemma {:induction false} EndsAre(s: seq<Conn>, p: Port)
    ensures p in Ends(s) <==> Taken(s, p)
  {
    if s != [] {
      var front, last := s[..|s| - 1], s[|s| - 1];
      EndsAre(front, p);
      TakenGrows(front, last, p);
      assert s == front + [last];
    }
  }

  lemma {:induction false} EndsCount(s: seq<Conn>)
    requires AllApart(s) && NoLoops(s)
    ensures |Ends(s)| == 2 * |s|
  {
    if s != [] {
      var front, last := s[..|s| - 1], s[|s| - 1];
      EndsCount(front);
      EndsAre(front, last.from);
      EndsAre(front, last.to);
      assert last in s;
      assert Ends(s) == Ends(front) + {last.from} + {last.to};
    }
  }

  lemma SameSize(a: set<Port>, b: set<Port>)
    requires a <= b && |a| == |b|
    ensures a == b
  {
    assert b == a + (b - a);
  }

  /** A bound port belongs to a connection bound one way or the other. */
  lemma TakenMeansBound(conns: seq<Conn>, made: seq<Conn>, c: Conn)
    requires Peered(conns) && c in conns && forall d :: d in made ==> d in conns
    ensures Taken(made, c.from) <==> c in made || c.Back() in made
    ensures Taken(made, c.from) <==> Taken(made, c.to)
  {
    forall p | p == c.from || p == c.to
      ensures Taken(made, p) ==> c in made || c.Back() in made
      ensures c in made || c.Back() in made ==> Taken(made, p)
    {
      if Taken(made, p) {
        var q :| 0 <= q < |made| && made[q].Has(p);
        var d := made[q];
        assert d in conns && d.Back() in conns && c.Back() in conns;
        if d.from == p {
          SameFrom(conns, d, if p == c.from then c else c.Back());
        } else {
          SameFrom(conns, d.Back(), if p == c.from then c else c.Back());
          assert d == d.Back().Back();
        }
      }
      if c in made {
        var q :| 0 <= q < |made| && made[q] == c;
        assert made[q].Has(p);
      }
      if c.Back() in made {
        var q :| 0 <= q < |made| && made[q] == c.Back();
        assert made[q].Has(p);
      }
    }
  }

  lemma NotBothWays(made: seq<Conn>, c: Conn)
    requires AllApart(made) && c.from != c.to && c in made
    ensures c.Back() !in made
  {
    var i :| 0 <= i < |made| && made[i] == c;
    forall j | 0 <= j < |made|
      ensures made[j] != c.Back()
    {
      assert i < j ==> Apart(made[i], made[j]);
      assert j < i ==> Apart(made[j], made[i]);
    }
  }

  /** The pass makes half of the listed connections exactly when it binds every port. */
  lemma HalfIffAllTaken(conns: seq<Conn>, made: seq<Conn>)
    requires Peered(conns) && AllApart(made) && forall d :: d in made ==> d in conns
    ensures 2 * |made| == |conns| <==> forall c :: c in conns ==> Taken(made, c.from)
  {
    SourcesCount(conns);
    EndsCount(made);
    forall p
      ensures p in Ends(made) <==> Taken(made, p)
    {
      EndsAre(made, p);
    }
    forall p | p in Ends(made)
      ensures p in Sources(conns)
    {
      var q :| 0 <= q < |made| && made[q].Has(p);
      assert made[q] in conns && made[q].Back() in conns;
      assert p == made[q].from || p == made[q].Back().from;
    }
    if 2 * |made| == |conns| {
      SameSize(Ends(made), Sources(conns));
      forall c | c in conns
        ensures Taken(made, c.from)
      {
        assert c.from in Sources(conns);
      }
    }
    if forall c :: c in conns ==> Taken(made, c.from) {
      assert Ends(made) == Sources(conns);
    }
  }

  lemma SortKeepsMembers(conns: seq<Conn>)
    ensures forall c :: c in SortConns(conns) <==> c in conns
  {
    SortIsSorted(conns);
    forall c
      ensures c in SortConns(conns) <==> c in conns
    {
      assert c in multiset(SortConns(conns)) <==> c in multiset(conns);
    }
  }

  lemma MadeIsSound(conns: seq<Conn>)
    requires Peered(conns)
    ensures AllApart(Made(conns)) && AllPlaced(Replay(Made(conns)), Made(conns))
    ensures forall c :: c in Made(conns) ==> c in conns
    ensures forall p: Port :: p.index < |Peers(Replay(Made(conns)), p.key)| <==> Taken(Made(conns), p)
  {
    var order := SortConns(conns);
    SortKeepsMembers(conns);
    PassIsWellBound(conns, order, |order|);
    MadeFrom(conns, order, |order|);
  }

  /** The vectors hold, at every configured index and at no other, the configured peer. */
  ghost predicate AsConfigured(conns: seq<Conn>, v: Vectors) {
    && (forall c :: c in conns ==> Placed(v, c.from, c.to))
    && (forall p: Port :: p.index < |Peers(v, p.key)| ==> p in Sources(conns))
  }

  lemma TakenIsOneWay(conns: seq<Conn>, made: seq<Conn>, c: Conn)
    requires Peered(conns) && c in conns && AllApart(made) && forall d :: d in made ==> d in conns
    ensures Taken(made, c.from) <==> (c in made) != (c.Back() in made)
  {
    TakenMeansBound(conns, made, c);
    if c in made {
      NotBothWays(made, c);
    }
  }

  lemma TakenIsPlaced(conns: seq<Conn>, made: seq<Conn>, v: Vectors, c: Conn)
    requires Peered(conns) && c in conns && AllPlaced(v, made) && forall d :: d in made ==> d in conns
    requires forall p: Port :: p.index < |Peers(v, p.key)| <==> Taken(made, p)
    ensures Taken(made, c.from) <==> Placed(v, c.from, c.to)
  {
    TakenMeansBound(conns, made, c);
  }

  lemma TakenIsListed(conns: seq<Conn>, made: seq<Conn>, p: Port)
    requires Symmetric(conns) && Taken(made, p) && forall d :: d in made ==> d in conns
    ensures p in Sources(conns)
  {
    var q :| 0 <= q < |made| && made[q].Has(p);
    assert made[q] in conns && made[q].Back() in conns;
    assert p == made[q].from || p == made[q].Back().from;
  }

  lemma TakenIsConfigured(conns: seq<Conn>, made: seq<Conn>, v: Vectors)
    requires Peered(conns) && AllPlaced(v, made) && forall d :: d in made ==> d in conns
    requires forall p: Port :: p.index < |Peers(v, p.key)| <==> Taken(made, p)
    ensures (forall c :: c in conns ==> Taken(made, c.from)) <==> AsConfigured(conns, v)
  {
    forall c | c in conns
      ensures Taken(made, c.from) <==> Placed(v, c.from, c.to)
    {
      TakenIsPlaced(conns, made, v, c);
    }
    forall p: Port | p.index < |Peers(v, p.key)|
      ensures p in Sources(conns)
    {
      TakenIsListed(conns, made, p);
    }
  }

  /** Success is every connection bound in exactly one direction and the vectors as configured. */
  lemma BindsEachOnce(conns: seq<Conn>)
    requires Peered(conns)
    ensures 2 * |Made(conns)| == |conns| <==> forall c :: c in conns ==> (c in Made(conns)) != (c.Back() in Made(conns))
    ensures 2 * |Made(conns)| == |conns| <==> AsConfigured(conns, Replay(Made(conns)))
  {
    var made := Made(conns);
    MadeIsSound(conns);
    HalfIffAllTaken(conns, made);
    TakenIsConfigured(conns, made, Replay(made));
    forall c | c in conns
      ensures Taken(made, c.from) <==> (c in made) != (c.Back() in made)
    {
      TakenIsOneWay(conns, made, c);
    }
  }

  // ----- Exactly when the pass succeeds

  /** The port to be appended just before `p`, if any, is an end of a chosen connection listed before position `n`. */
  ghost predicate Preceded(order: seq<Conn>, chosen: set<Conn>, n: nat, p: Port)
    requires n <= |order|
  {
    p.index > 0 ==> exists j :: 0 <= j < n && order[j] in chosen && order[j].Has(Port(p.key, p.index - 1))
  }

  ghost predicate Timely(order: seq<Conn>, chosen: set<Conn>, n: nat)
    requires n < |order|
  {
    order[n] in chosen ==> Preceded(order, chosen, n, order[n].from) && Preceded(order, chosen, n, order[n].to)
  }

  /** One direction of every connection is chosen, and the list meets each chosen one after its predecessors. */
  ghost predicate Schedules(order: seq<Conn>, chosen: set<Conn>) {
    && (forall c :: c in order ==> (c in chosen) != (c.Back() in chosen))
    && (forall n :: 0 <= n < |order| ==> Timely(order, chosen, n))
  }

  ghost predicate Schedulable(order: seq<Conn>) {
    exists chosen :: Schedules(order, chosen)
  }

  function ToSet(s: seq<Conn>): set<Conn> {
    set c | c in s
  }

  lemma {:induction false} MadeGrows(conns: seq<Conn>, order: seq<Conn>, m: nat, n: nat)
    requires m <= n <= |order|
    ensures After(conns, order, m).made <= After(conns, order, n).made
  {
    if m < n {
      MadeGrows(conns, order, m, n - 1);
    }
  }

  /** What was made at or after position `n` is listed there. */
  lemma {:induction false} MadeWhen(conns: seq<Conn>, order: seq<Conn>, i: nat, n: nat)
    requires i < n <= |order| && order[i] in After(conns, order, n).made
    requires forall j, k :: 0 <= j < k < |order| ==> order[j] != order[k]
    ensures Fits(After(conns, order, i).next, order[i].from) && Fits(After(conns, order, i).next, order[i].to)
  {
    if i < n - 1 {
      MadeWhen(conns, order, i, n - 1);
    } else {
      MadeFrom(conns, order, i);
      assert order[i] !in order[..i];
    }
  }

  /** A fitting port has its predecessor bound already. */
  lemma FitsIsPreceded(conns: seq<Conn>, order: seq<Conn>, i: nat, p: Port)
    requires i <= |order| && NoLoops(order) && Fits(After(conns, order, i).next, p)
    ensures Preceded(order, ToSet(After(conns, order, |order|).made), i, p)
  {
    var st := After(conns, order, i);
    PassIsWellBound(conns, order, i);
    MadeFrom(conns, order, i);
    MadeGrows(conns, order, i, |order|);
    if p.index > 0 {
      assert Taken(st.made, Port(p.key, p.index - 1));
      var q :| 0 <= q < |st.made| && st.made[q].Has(Port(p.key, p.index - 1));
      assert st.made[q] in order[..i];
      var j :| 0 <= j < i && order[j] == st.made[q];
      assert st.made[q] in After(conns, order, |order|).made;
    }
  }

  /** Every chosen connection met so far has been bound, one way or the other. */
  ghost predicate ChosenTaken(order: seq<Conn>, chosen: set<Conn>, n: nat, made: seq<Conn>)
    requires n <= |order|
  {
    forall i :: 0 <= i < n && order[i] in chosen ==> Taken(made, order[i].from) && Taken(made, order[i].to)
  }

  lemma PrecededFits(order: seq<Conn>, chosen: set<Conn>, n: nat, st: Pass, p: Port)
    requires n <= |order| && ChosenTaken(order, chosen, n, st.made) && Preceded(order, chosen, n, p)
    requires CountsTaken(st.made, st.next) && p.key in st.next && !Taken(st.made, p)
    ensures Fits(st.next, p)
  {
    if p.index > 0 {
      assert Taken(st.made, Port(p.key, p.index - 1));
    }
  }

  lemma TakenMono(a: seq<Conn>, b: seq<Conn>, p: Port)
    requires a <= b && Taken(a, p)
    ensures Taken(b, p)
  {
    var q :| 0 <= q < |a| && a[q].Has(p);
    assert b[q].Has(p);
  }

  lemma ChosenStep(conns: seq<Conn>, order: seq<Conn>, chosen: set<Conn>, n: nat, st: Pass, st': Pass)
    requires Peered(conns) && (forall c :: c in order <==> c in conns) && Schedules(order, chosen)
    requires n < |order| && st == After(conns, order, n) && st' == Try(st, order[n])
    requires ChosenTaken(order, chosen, n, st.made)
    ensures order[n] in chosen ==> Taken(st'.made, order[n].from) && Taken(st'.made, order[n].to)
  {
    var c := order[n];
    PassIsWellBound(conns, order, n);
    MadeFrom(conns, order, n);
    assert c in conns && c.Back() in conns;
    TakenMeansBound(conns, st.made, c);
    assert Timely(order, chosen, n);
    if c in chosen {
      if Taken(st.made, c.from) {
        TakenMono(st.made, st'.made, c.from);
        TakenMono(st.made, st'.made, c.to);
      } else {
        assert c.Back().from.key in FromKeys(conns);
        PrecededFits(order, chosen, n, st, c.from);
        PrecededFits(order, chosen, n, st, c.to);
        TakenGrows(st.made, c, c.from);
        TakenGrows(st.made, c, c.to);
      }
    }
  }

  lemma ChosenMono(order: seq<Conn>, chosen: set<Conn>, n: nat, made: seq<Conn>, more: seq<Conn>)
    requires n < |order| && made <= more && ChosenTaken(order, chosen, n, made)
    requires order[n] in chosen ==> Taken(more, order[n].from) && Taken(more, order[n].to)
    ensures ChosenTaken(order, chosen, n + 1, more)
  {
    forall i | 0 <= i < n && order[i] in chosen
      ensures Taken(more, order[i].from) && Taken(more, order[i].to)
    {
      TakenMono(made, more, order[i].from);
      TakenMono(made, more, order[i].to);
    }
  }

  lemma Advance(conns: seq<Conn>, order: seq<Conn>, chosen: set<Conn>, n: nat, st: Pass, st': Pass)
    requires Peered(conns) && (forall c :: c in order <==> c in conns) && Schedules(order, chosen)
    requires n < |order| && st == After(conns, order, n) && st' == Try(st, order[n])
    requires ChosenTaken(order, chosen, n, st.made)
    ensures ChosenTaken(order, chosen, n + 1, st'.made)
  {
    ChosenStep(conns, order, chosen, n, st, st');
    ChosenMono(order, chosen, n, st.made, st'.made);
  }

  lemma {:induction false} GreedyKeepsUp(conns: seq<Conn>, order: seq<Conn>, chosen: set<Conn>, n: nat)
    requires Peered(conns) && (forall c :: c in order <==> c in conns) && Schedules(order, chosen)
    requires n <= |order|
    ensures ChosenTaken(order, chosen, n, After(conns, order, n).made)
  {
    if n > 0 {
      GreedyKeepsUp(conns, order, chosen, n - 1);
      Advance(conns, order, chosen, n - 1, After(conns, order, n - 1), After(conns, order, n));
    }
  }

  lemma ScheduleSucceeds(conns: seq<Conn>, chosen: set<Conn>)
    requires Peered(conns) && Schedules(SortConns(conns), chosen)
    ensures 2 * |Made(conns)| == |conns|
  {
    var order := SortConns(conns);
    SortKeepsMembers(conns);
    MadeIsSound(conns);
    GreedyKeepsUp(conns, order, chosen, |order|);
    forall c | c in conns
      ensures Taken(Made(conns), c.from)
    {
      assert c in order && c.Back() in order;
    }
    HalfIffAllTaken(conns, Made(conns));
  }

  lemma SortedDistinct(conns: seq<Conn>)
    requires Peered(conns)
    ensures forall j, k :: 0 <= j < k < |SortConns(conns)| ==> SortConns(conns)[j] != SortConns(conns)[k]
  {
    var order := SortConns(conns);
    SortIsSorted(conns);
    forall j, k | 0 <= j < k < |order|
      ensures order[j] != order[k]
    {
      Multiplicity(order, j, k);
      DistinctOnce(conns, order[j]);
    }
  }

  lemma Multiplicity(s: seq<Conn>, j: nat, k: nat)
    requires j < k < |s|
    ensures s[j] == s[k] ==> multiset(s)[s[j]] >= 2
  {
    assert s == s[..k] + [s[k]] + s[k + 1..];
    assert s[j] in s[..k];
  }

  lemma {:induction false} DistinctOnce(s: seq<Conn>, c: Conn)
    requires forall i, j :: 0 <= i < j < |s| ==> s[i].from != s[j].from
    ensures multiset(s)[c] <= 1
  {
    if s != [] {
      DistinctOnce(s[..|s| - 1], c);
      assert s == s[..|s| - 1] + [s[|s| - 1]];
      assert c in multiset(s[..|s| - 1]) ==> c in s[..|s| - 1];
    }
  }

  lemma SuccessSchedules(conns: seq<Conn>)
    requires Peered(conns) && 2 * |Made(conns)| == |conns|
    ensures Schedules(SortConns(conns), ToSet(Made(conns)))
  {
    var order := SortConns(conns);
    var chosen := ToSet(Made(conns));
    SortKeepsMembers(conns);
    SortedDistinct(conns);
    BindsEachOnce(conns);
    forall n | 0 <= n < |order|
      ensures Timely(order, chosen, n)
    {
      if order[n] in chosen {
        MadeWhen(conns, order, n, |order|);
        FitsIsPreceded(conns, order, n, order[n].from);
        FitsIsPreceded(conns, order, n, order[n].to);
      }
    }
  }

  /** The greedy pass succeeds exactly when any choice of directions would. */
  lemma SucceedsIffSchedulable(conns: seq<Conn>)
    requires Peered(conns)
    ensures 2 * |Made(conns)| == |conns| <==> Schedulable(SortConns(conns))
  {
    if 2 * |Made(conns)| == |conns| {
      SuccessSchedules(conns);
    }
    if Schedulable(SortConns(conns)) {
      var chosen :| Schedules(SortConns(conns), chosen);
      ScheduleSucceeds(conns, chosen);
    }
  }

  /** A counter for each vector port. */
  method StartCounters(conns: seq<Conn>) returns (next: Counters)
    ensures next == Start(conns)
  {
    next := map[];
    for i := 0 to |conns|
      invariant next == Start(conns[..i])
    {
      assert conns[..i + 1] == conns[..i] + [conns[i]];
      next := next[conns[i].from.key := 0];
    }
    assert conns[..|conns|] == conns;
  }

  /** The pass over the sorted connections. */
  method MakeConnections(conns: seq<Conn>) returns (made: seq<Conn>)
    requires Symmetric(conns)
    ensures made == Made(conns)
  {
    var next := StartCounters(conns);
    var order := SortConns(conns);
    made := [];
    for n := 0 to |order|
      invariant Pass(next, made) == After(conns, order, n)
    {
      var c := order[n];
      if Fits(next, c.from) && Fits(next, c.to) {
        made := made + [c];
        next := Count(next, c.from);
        next := Count(next, c.to);
      }
    }
  }

  method BindPorts(conns: seq<Conn>) returns (r: Outcome)
    requires Symmetric(conns)
    ensures r == if 2 * |Made(conns)| == |conns| then Bound(Made(conns)) else Raised
    ensures Peered(conns) && r.Bound? ==> AsConfigured(conns, Replay(r.made))
    ensures InNameOrder(SortConns(conns)) && multiset(SortConns(conns)) == multiset(conns)
    ensures Peered(conns) ==> (r.Bound? <==> Schedulable(SortConns(conns)))
  {
    PassIsInNameOrder(conns);
    var made := MakeConnections(conns);
    if Peered(conns) {
      BindsEachOnce(conns);
      SucceedsIffSchedulable(conns);
    }
    if |made| * 2 != |conns| {
      return Raised;
    }
    return Bound(made);
  }

  // ----- A list that is bound because objects come before ports

  /** A bus with a page-table walker and a second bus behind it, which leads to a memory; sorted. */
  function Buses(): seq<Conn> {
    var walker, memory := Port(Key("b_cpu", "walker"), 0), Port(Key("z_mem", "port"), 0);
    var slave0, slave1 := Port(Key("a_bus", "slave"), 0), Port(Key("a_bus", "slave"), 1);
    var master0, master1 := Port(Key("m_bus", "master"), 0), Port(Key("m_bus", "master"), 1);
    [Conn(slave0, walker), Conn(slave1, master0), Conn(walker, slave0),
     Conn(master0, slave1), Conn(master1, memory), Conn(memory, master1)]
  }

  lemma BusesAreSorted()
    ensures SortConns(Buses()) == Buses()
  {
    var s := Buses();
    assert "a_bus"[0] == 'a' && "b_cpu"[0] == 'b' && "m_bus"[0] == 'm' && "z_mem"[0] == 'z';
    assert StringLE("a_bus", "b_cpu") && StringLE("b_cpu", "m_bus") && StringLE("m_bus", "z_mem");
    SortedIsFixed(s);
  }

  lemma BusesArePeered()
    ensures Peered(Buses())
  {
    var s := Buses();
    assert "a_bus"[0] == 'a' && "b_cpu"[0] == 'b' && "m_bus"[0] == 'm' && "z_mem"[0] == 'z';
    assert s[2] == s[0].Back() && s[3] == s[1].Back() && s[5] == s[4].Back();
  }

  lemma InTurn(s: seq<Conn>, chosen: set<Conn>)
    requires |s| == 6 && s[2] == s[0].Back() && s[3] == s[1].Back() && s[5] == s[4].Back()
    requires chosen == {s[0], s[1], s[4]} && s[2] !in chosen && s[3] !in chosen && s[5] !in chosen
    requires s[0].from.index == s[0].to.index == s[1].to.index == s[4].to.index == 0
    requires s[1].from == Port(s[0].from.key, 1) && s[4].from == Port(s[1].to.key, 1)
    ensures Schedules(s, chosen)
  {
    assert s[0].Has(Port(s[1].from.key, 0)) && s[1].Has(Port(s[4].from.key, 0));
    assert Preceded(s, chosen, 1, s[1].from) && Preceded(s, chosen, 4, s[4].from);
    forall n | 0 <= n < |s|
      ensures Timely(s, chosen, n)
    {
      assert n == 0 || n == 1 || n == 2 || n == 3 || n == 4 || n == 5;
    }
  }

  /** The pass binds all three connections, each from its first end. */
  lemma BindsBuses()
    ensures 2 * |Made(Buses())| == |Buses()|
  {
    BusesArePeered();
    BusesAreSorted();
    var s := Buses();
    var chosen := {s[0], s[1], s[4]};
    InTurn(s, chosen);
    ScheduleSucceeds(s, chosen);
  }

  // ----- An orderable list that is rejected

  lemma {:induction false} SortedIsFixed(s: seq<Conn>)
    requires forall i :: 0 < i < |s| ==> ConnLE(s[i - 1], s[i])
    ensures SortConns(s) == s
  {
    if s != [] {
      SortedIsFixed(s[..|s| - 1]);
      assert s == s[..|s| - 1] + [s[|s| - 1]];
    }
  }

  function At(obj: string, index: nat): Port {
    Port(Key(obj, "p"), index)
  }

  /** a[0]-c[1], a[1]-b[0] and c[0]-d[0], both ways, in sorted order. */
  function Crossed(): seq<Conn> {
    [Conn(At("a", 0), At("c", 1)), Conn(At("a", 1), At("b", 0)), Conn(At("b", 0), At("a", 1)),
     Conn(At("c", 0), At("d", 0)), Conn(At("c", 1), At("a", 0)), Conn(At("d", 0), At("c", 0))]
  }

  lemma CrossedIsPeered()
    ensures Peered(Crossed()) && SortConns(Crossed()) == Crossed()
  {
    var s := Crossed();
    assert "a"[0] == 'a' && "b"[0] == 'b' && "c"[0] == 'c' && "d"[0] == 'd';
    assert StringLE("a", "b") && StringLE("b", "c") && StringLE("c", "d");
    assert s[0].from == At("a", 0) && s[1].from == At("a", 1) && s[2].from == At("b", 0);
    assert s[3].from == At("c", 0) && s[4].from == At("c", 1) && s[5].from == At("d", 0);
    SortedIsFixed(s);
  }

  lemma ReplayThree(x: Conn, y: Conn, z: Conn)
    ensures Replay([x, y, z]) == Bind(Bind(Bind(map[], x), y), z)
  {
    assert [x, y, z] == [x] + [y] + [z];
    assert [x] == [] + [x];
    ReplayOne([], x);
    ReplayOne([x], y);
    ReplayOne([x] + [y], z);
  }

  lemma ThreeBinds(x: Conn, y: Conn, z: Conn)
    requires x.from.key != x.to.key && y.from.key != y.to.key && z.from.key != z.to.key
    requires y.to.key == x.from.key && z.from.key == y.from.key && z.to.key !in {x.from.key, x.to.key}
    requires y.from.key != x.to.key
    requires x.from.index == x.to.index == y.from.index == z.to.index == 0 && y.to.index == z.from.index == 1
    ensures var v := Bind(Bind(Bind(map[], x), y), z);
      && PlacedBoth(v, x) && PlacedBoth(v, y) && PlacedBoth(v, z)
      && forall k :: |Peers(v, k)| ==
           if k == x.from.key || k == y.from.key then 2 else if k == x.to.key || k == z.to.key then 1 else 0
  {
    BindPlaces(map[], x);
    BindPlaces(Bind(map[], x), y);
    BindPlaces(Bind(Bind(map[], x), y), z);
  }

  lemma CrossedSources()
    ensures Sources(Crossed()) == {At("a", 0), At("a", 1), At("b", 0), At("c", 0), At("c", 1), At("d", 0)}
  {
    var s := Crossed();
    assert s[0] in s && s[1] in s && s[2] in s && s[3] in s && s[4] in s && s[5] in s;
  }

  lemma CrossedPort(p: Port, n: nat)
    requires n == if p.key == At("c", 0).key || p.key == At("a", 0).key then 2
                  else if p.key == At("d", 0).key || p.key == At("b", 0).key then 1
                  else 0
    requires p.index < n
    ensures p in Sources(Crossed())
  {
    CrossedSources();
    assert p == Port(p.key, p.index);
  }

  lemma CrossedIsConfigured(v: Vectors)
    requires PlacedBoth(v, Crossed()[0]) && PlacedBoth(v, Crossed()[1]) && PlacedBoth(v, Crossed()[3])
    requires forall k ::
               |Peers(v, k)| == if k == At("c", 0).key || k == At("a", 0).key then 2
                                else if k == At("d", 0).key || k == At("b", 0).key then 1
                                else 0
    ensures AsConfigured(Crossed(), v)
  {
    forall p: Port | p.index < |Peers(v, p.key)|
      ensures p in Sources(Crossed())
    {
      CrossedPort(p, |Peers(v, p.key)|);
    }
    CrossedIsPlaced(v);
  }

  lemma CrossedIsPlaced(v: Vectors)
    requires PlacedBoth(v, Crossed()[0]) && PlacedBoth(v, Crossed()[1]) && PlacedBoth(v, Crossed()[3])
    ensures forall c :: c in Crossed() ==> Placed(v, c.from, c.to)
  {
    var s := Crossed();
    assert s[2] == s[1].Back() && s[4] == s[0].Back() && s[5] == s[3].Back();
  }

  /** Binding c[0]-d[0], then a[0]-c[1], then a[1]-b[0] gives every port its peer. */
  lemma CrossedIsOrderable()
    ensures AsConfigured(Crossed(), Replay([Crossed()[3], Crossed()[0], Crossed()[1]]))
  {
    var x, y, z := Crossed()[3], Crossed()[0], Crossed()[1];
    ReplayThree(x, y, z);
    ThreeBinds(x, y, z);
    CrossedIsConfigured(Bind(Bind(Bind(map[], x), y), z));
  }

  /** a[1]-b[0] is listed, both ways, between a[0]-c[1] and c[0]-d[0], which that one waits for. */
  lemma CrossedHasNoSchedule(chosen: set<Conn>)
    ensures !Schedules(Crossed(), chosen)
  {
    var s := Crossed();
    assert s[1].Back() == s[2];
    assert !Preceded(s, chosen, 0, At("c", 1));
    assert s[0] !in chosen ==> !Preceded(s, chosen, 1, At("a", 1)) && !Preceded(s, chosen, 2, At("a", 1));
    assert Schedules(s, chosen) ==> Timely(s, chosen, 0) && Timely(s, chosen, 1) && Timely(s, chosen, 2);
  }

  /** So the sorted pass rejects a list that another order of binding would satisfy. */
  lemma RejectsOrderable()
    ensures 2 * |Made(Crossed())| != |Crossed()|
  {
    CrossedIsPeered();
    SucceedsIffSchedulable(Crossed());
    forall chosen
      ensures !Schedules(Crossed(), chosen)
    {
      CrossedHasNoSchedule(chosen);
    }
  }
}
