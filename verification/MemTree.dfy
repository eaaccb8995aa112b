/**
 The cache and tester tree of the memory test: at each level a subsystem with its own testers
 and caches that each fan out to a subsystem of the next level up.
 */
module MemTree {

  /** Caches fanned out and testers per subsystem, from the memory upwards. */
  datatype Spec = Spec(caches: seq<nat>, testers: seq<nat>) {
    predicate Valid() {
      && |caches| >= 1
      && |testers| == |caches| + 1
      && testers[|caches|] != 0
      && forall d :: 0 <= d < |caches| ==> caches[d] >= 1
    }
  }

  // ----- Counting testers

  /** The product of the fan-outs from depth `d` up to depth `e`. */
  function Fan(s: Spec, d: nat, e: nat): nat
    requires d <= e <= |s.caches|
    decreases e - d
  {
    if d == e then 1 else s.caches[d] * Fan(s, d + 1, e)
  }

  /** Testers in the subtree of one subsystem at depth `d`. */
  function Below(s: Spec, d: nat): nat
    requires s.Valid() && d <= |s.caches|
    decreases |s.caches| - d
  {
    s.testers[d] + if d == |s.caches| then 0 else s.caches[d] * Below(s, d + 1)
  }

  /** Testers at depths `e` and above, of a subtree rooted at depth `d`. */
  function Total(s: Spec, d: nat, e: nat): nat
    requires s.Valid() && d <= e <= |s.caches| + 1
    decreases |s.caches| + 1 - e
  {
    if e == |s.caches| + 1 then 0 else s.testers[e] * Fan(s, d, e) + Total(s, d, e + 1)
  }

  lemma {:induction false} FanRight(s: Spec, d: nat, e: nat)
    requires d <= e < |s.caches|
    ensures Fan(s, d, e + 1) == Fan(s, d, e) * s.caches[e]
    decreases e - d
  {
    if d < e {
      FanRight(s, d + 1, e);
      MulAssociates(s.caches[d], Fan(s, d + 1, e), s.caches[e]);
    } else {
      assert Fan(s, e + 1, e + 1) == 1;
    }
  }

  lemma MulAssociates(a: nat, b: nat, c: nat)
    ensures a * (b * c) == a * b * c
  {
  }

  lemma {:induction false} TotalScales(s: Spec, d: nat, e: nat)
    requires s.Valid() && d < e <= |s.caches| + 1 && d < |s.caches|
    ensures Total(s, d, e) == s.caches[d] * Total(s, d + 1, e)
    decreases |s.caches| + 1 - e
  {
    if e <= |s.caches| {
      TotalScales(s, d, e + 1);
      Distribute(s.caches[d], s.testers[e], Fan(s, d + 1, e), Total(s, d + 1, e + 1));
    }
  }

  lemma Distribute(c: nat, t: nat, f: nat, rest: nat)
    ensures t * (c * f) + c * rest == c * (t * f + rest)
  {
    MulAssociates(c, t, f);
    MulAssociates(t, c, f);
  }

  /** Counting level by level agrees with counting subtree by subtree. */
  lemma {:induction false} TotalIsBelow(s: Spec, d: nat)
    requires s.Valid() && d <= |s.caches|
    ensures Total(s, d, d) == Below(s, d)
    decreases |s.caches| - d
  {
    assert Fan(s, d, d) == 1;
    if d < |s.caches| {
      TotalIsBelow(s, d + 1);
      TotalScales(s, d, d + 1);
    } else {
      assert Total(s, d, d + 1) == 0;
    }
  }

  method NumTesters(s: Spec) returns (total: nat)
    requires s.Valid()
    ensures total == Below(s, 0)
  {
    var multiplier := [1];
    for d := 0 to |s.caches|
      invariant |multiplier| == d + 1 && forall e :: 0 <= e <= d ==> multiplier[e] == Fan(s, 0, e)
    {
      FanRight(s, 0, d);
      multiplier := multiplier + [multiplier[|multiplier| - 1] * s.caches[d]];
    }
    total := 0;
    for e := 0 to |s.testers|
      invariant total + Total(s, 0, e) == Total(s, 0, 0)
    {
      total := total + s.testers[e] * multiplier[e];
    }
    TotalIsBelow(s, 0);
  }

  // ----- Building

  datatype Name = Name(level: nat, index: nat)

  /** Names used at each level are those below its counter, and none is used twice. */
  ghost predicate NamesInUse(names: seq<Name>, next: seq<nat>) {
    && (forall n :: n in names <==> n.level < |next| && n.index < next[n.level])
    && (forall i, j :: 0 <= i < j < |names| ==> names[i] != names[j])
  }

  /** What a subtree at depth `d` adds to the counter of each level. */
  ghost predicate Advanced(s: Spec, d: nat, times: nat, was: seq<nat>, now: seq<nat>)
    requires d <= |s.caches| + 1
  {
    |now| == |was| == |s.caches| + 1
    && forall l :: 0 <= l < |now| ==>
         now[l] == was[l] + if l + d <= |s.caches| then times * Fan(s, d, |s.caches| - l) else 0
  }

  class MemSystem {
    const spec: Spec
    var next: seq<nat>
    var names: seq<Name>
    var testers: nat

    constructor (spec: Spec)
      requires spec.Valid()
      ensures this.spec == spec && testers == 0 && names == []
      ensures |next| == |spec.caches| + 1 && (forall l :: 0 <= l < |next| ==> next[l] == 0) && NamesInUse(names, next)
    {
      this.spec, names, testers := spec, [], 0;
      next := seq(|spec.caches| + 1, _ => 0);
    }

    /**
     One subsystem and, through each of its caches, the subtree above. `prototypes` is how many cache
     prototypes are left; `ok` is false for the error of a top level without a next cache.
     */
    method MakeCacheLevel(ncaches: seq<nat>, prototypes: nat, level: nat, nextCache: bool) returns (ok: bool)
      requires spec.Valid() && level <= |spec.caches| && |next| == |spec.caches| + 1 && NamesInUse(names, next)
      requires ncaches == spec.caches[|spec.caches| - level..] && prototypes == level
      modifies this
      ensures ok == (level != 0 || nextCache)
      ensures ok ==> NamesInUse(names, next)
      ensures ok ==> testers == old(testers) + Below(spec, |spec.caches| - level)
      ensures ok ==> Advanced(spec, |spec.caches| - level, 1, old(next), next)
      decreases level, 1
    {
      ghost var d := |spec.caches| - level;
      var index := next[level];
      NameIsNew(names, next, level);
      next := next[level := index + 1];
      names := names + [Name(level, index)];
      var ntesters := spec.testers[|spec.caches| - level];
      testers := testers + ntesters;
      if level == 0 {
        if !nextCache {
          return false;
        }
        assert ntesters >= 1;
        return true;
      }
      ghost var start := next;
      MakeSubtrees(ncaches, prototypes, level);
      AdvanceSubtree(spec, d, old(next), start, next);
      return true;
    }

    /** The subtree of each cache. */
    method MakeSubtrees(ncaches: seq<nat>, prototypes: nat, level: nat)
      requires spec.Valid() && 0 < level <= |spec.caches| && |next| == |spec.caches| + 1 && NamesInUse(names, next)
      requires ncaches == spec.caches[|spec.caches| - level..] && prototypes == level
      modifies this
      ensures NamesInUse(names, next)
      ensures testers == old(testers) + ncaches[0] * Below(spec, |spec.caches| - level + 1)
      ensures Advanced(spec, |spec.caches| - level + 1, ncaches[0], old(next), next)
      decreases level, 0
    {
      ghost var d, start, counted := |spec.caches| - level + 1, next, testers;
      for k := 0 to ncaches[0]
        invariant |next| == |spec.caches| + 1 && NamesInUse(names, next)
        invariant testers == counted + k * Below(spec, d) && Advanced(spec, d, k, start, next)
      {
        ghost var before := next;
        var _ := MakeCacheLevel(ncaches[1..], prototypes - 1, level - 1, true);
        AdvanceOnce(spec, d, k, start, before, next);
        OneMore(k, Below(spec, d));
      }
    }
  }

  lemma NameIsNew(names: seq<Name>, next: seq<nat>, level: nat)
    requires NamesInUse(names, next) && level < |next|
    ensures NamesInUse(names + [Name(level, next[level])], next[level := next[level] + 1])
  {
    var all := names + [Name(level, next[level])];
    assert forall n :: n in all <==> n in names || n == Name(level, next[level]);
  }

  lemma AdvanceOnce(s: Spec, d: nat, k: nat, start: seq<nat>, before: seq<nat>, now: seq<nat>)
    requires d <= |s.caches| && Advanced(s, d, k, start, before) && Advanced(s, d, 1, before, now)
    ensures Advanced(s, d, k + 1, start, now)
  {
    forall l | 0 <= l < |now| && l + d <= |s.caches|
      ensures now[l] == start[l] + (k + 1) * Fan(s, d, |s.caches| - l)
    {
      OneMore(k, Fan(s, d, |s.caches| - l));
    }
  }

  lemma OneMore(k: nat, x: nat)
    ensures (k + 1) * x == k * x + 1 * x
  {
  }

  lemma AdvanceSubtree(s: Spec, d: nat, was: seq<nat>, start: seq<nat>, now: seq<nat>)
    requires d < |s.caches| && |was| == |s.caches| + 1 && start == was[|s.caches| - d := was[|s.caches| - d] + 1]
    requires Advanced(s, d + 1, s.caches[d], start, now)
    ensures Advanced(s, d, 1, was, now)
  {
    forall l | 0 <= l < |now|
      ensures now[l] == was[l] + if l + d <= |s.caches| then 1 * Fan(s, d, |s.caches| - l) else 0
    {
      if l + d == |s.caches| {
        assert Fan(s, d, d) == 1;
      }
    }
  }

  /**
   The whole tree: as many testers as counted beforehand, each level's counter at the product of
   the fan-outs below it, every name used once, and no error.
   */
  method MakeTree(s: Spec) returns (ok: bool, testers: nat, next: seq<nat>, names: seq<Name>)
    requires s.Valid()
    ensures ok && testers == Total(s, 0, 0)
    ensures |next| == |s.caches| + 1 && forall l :: 0 <= l < |next| ==> next[l] == Fan(s, 0, |s.caches| - l)
    ensures NamesInUse(names, next)
  {
    var m := new MemSystem(s);
    ok := m.MakeCacheLevel(s.caches, |s.caches|, |s.caches|, false);
    TotalIsBelow(s, 0);
    testers, next, names := m.testers, m.next, m.names;
  }

  /** The default specification: one tester at the memory, two above it and eight on top. */
  lemma DefaultTree()
    ensures Spec([2, 2, 1], [1, 1, 0, 2]).Valid() && Below(Spec([2, 2, 1], [1, 1, 0, 2]), 0) == 11
    ensures Fan(Spec([2, 2, 1], [1, 1, 0, 2]), 0, 3) == 4
  {
    var s := Spec([2, 2, 1], [1, 1, 0, 2]);
    assert Below(s, 3) == 2 && Below(s, 2) == 2 && Below(s, 1) == 5;
    assert Fan(s, 3, 3) == 1 && Fan(s, 2, 3) == 1 && Fan(s, 1, 3) == 2;
  }
}
