/**
 The checkpoint upgrade script: upgraders and downgraders are registered with their
 dependencies, and the ones a checkpoint needs are applied round by round.
 */
module CheckpointUpgrade {
  type Tag = string

  /** What an upgrader file defines; `version` is its legacy version, if it has one. */
  datatype Upgrader = Upgrader(tag: Tag, depends: seq<Tag>, fwdDepends: seq<Tag>, upgrades: bool, version: Version)

  datatype Version = Current | Legacy(n: int)

  /** The registered tags: those with an upgrader, those with a downgrader, and what each depends on. */
  datatype Registry = Registry(ups: set<Tag>, downs: set<Tag>, deps: map<Tag, set<Tag>>) {
    ghost predicate Valid() {
      ups !! downs && ups + downs == deps.Keys
    }

    predicate Ready(t: Tag, tags: set<Tag>)
      requires t in deps
    {
      deps[t] <= tags
    }

    /** Tags for which something has to be applied to a checkpoint that has `tags`. */
    function Pending(tags: set<Tag>): set<Tag> {
      (ups - tags) + (downs * tags)
    }
  }

  // ----- Applying what is pending

  /** `Aborted` reports the tags that could not be applied; `KeyError` is an attempt to remove an absent tag. */
  datatype Outcome = Done(tags: set<Tag>) | Aborted(tags: set<Tag>, stuck: set<Tag>) | KeyError

  function ReadyIn(reg: Registry, tags: set<Tag>, todo: set<Tag>): set<Tag>
    requires todo <= reg.deps.Keys
  {
    set t | t in todo && reg.Ready(t, tags)
  }

  /** One round: everything ready is applied. */
  function Round(reg: Registry, tags: set<Tag>, ready: set<Tag>): set<Tag> {
    (tags + ready * reg.ups) - ready * reg.downs
  }

  function Resolve(reg: Registry, tags: set<Tag>, todo: set<Tag>): Outcome
    requires todo <= reg.deps.Keys
    decreases todo
  {
    if todo == {} then Done(tags)
    else
      var ready := ReadyIn(reg, tags, todo);
      if ready == {} then Aborted(tags, todo)
      else
        assert todo - ready < todo;
        Resolve(reg, Round(reg, tags, ready), todo - ready)
  }

  /** Pending tags are absent if they are to be added and present if they are to be removed. */
  predicate Consistent(reg: Registry, tags: set<Tag>, todo: set<Tag>) {
    todo <= reg.ups + reg.downs && todo * reg.ups !! tags && todo * reg.downs <= tags
  }

  lemma RoundOneMore(reg: Registry, tags: set<Tag>, ready: set<Tag>, left: set<Tag>, t: Tag)
    requires reg.Valid() && t in left && left <= ready <= reg.ups + reg.downs
    ensures Round(reg, tags, ready - (left - {t})) ==
      if t in reg.ups then Round(reg, tags, ready - left) + {t} else Round(reg, tags, ready - left) - {t}
  {
    assert ready - (left - {t}) == (ready - left) + {t};
  }

  /** Applies a set of tags one at a time, in any order; `log` is the order taken. */
  method ApplyRound(reg: Registry, tags: set<Tag>, ready: set<Tag>) returns (ok: bool, tags': set<Tag>, log: seq<Tag>)
    requires reg.Valid() && Consistent(reg, tags, ready)
    ensures ok && tags' == Round(reg, tags, ready) && Elems(log) == ready && |log| == |ready|
  {
    ok, tags', log := true, tags, [];
    var left := ready;
    while left != {}
      invariant left <= ready && ok
      invariant tags' == Round(reg, tags, ready - left)
      invariant Elems(log) == ready - left && |log| + |left| == |ready|
      decreases left
    {
      var t :| t in left;
      RoundOneMore(reg, tags, ready, left, t);
      if t in reg.ups {
        tags' := tags' + {t};
      } else {
        if t !in tags' {
          ok := false;
          return;
        }
        tags' := tags' - {t};
      }
      left := left - {t};
      ElemsSnoc(log, t);
      log := log + [t];
    }
    assert ready - {} == ready;
  }

  lemma ElemsSnoc(s: seq<Tag>, t: Tag)
    ensures Elems(s + [t]) == Elems(s) + {t}
  {
  }

  lemma RoundStep(reg: Registry, now: set<Tag>, todo: set<Tag>, ready: set<Tag>)
    requires reg.Valid() && todo <= reg.deps.Keys && Consistent(reg, now, todo) && todo != {}
    requires ready == ReadyIn(reg, now, todo) && ready != {}
    ensures Resolve(reg, now, todo) == Resolve(reg, Round(reg, now, ready), todo - ready)
    ensures Consistent(reg, now, ready) && Consistent(reg, Round(reg, now, ready), todo - ready)
  {
  }

  /** `log` applies exactly `applied`, each tag once and after its dependencies, and gives at most `now`. */
  ghost predicate Logged(reg: Registry, tags: set<Tag>, applied: set<Tag>, now: set<Tag>, log: seq<Tag>) {
    ValidOrder(reg, tags, log) && Elems(log) == applied && |log| == |applied| && now <= tags + applied
  }

  lemma LogRound(reg: Registry, tags: set<Tag>, applied: set<Tag>, now: set<Tag>, log: seq<Tag>,
                 ready: set<Tag>, more: seq<Tag>)
    requires Logged(reg, tags, applied, now, log) && applied !! ready
    requires Elems(more) == ready && |more| == |ready|
    requires forall t :: t in ready ==> t in reg.deps && reg.deps[t] <= now
    ensures Logged(reg, tags, applied + ready, Round(reg, now, ready), log + more)
  {
    ReadyInAnyOrder(reg, tags + applied, more) by {
      forall t | t in more
        ensures t in reg.deps && reg.deps[t] <= tags + applied
      {
        assert t in Elems(more);
      }
    }
    ExtendOrder(reg, tags, log, more);
  }

  /** A state the loop can be in: `todo` of the pending tags are left, `log` has been applied. */
  ghost predicate Reached(reg: Registry, tags: set<Tag>, now: set<Tag>, todo: set<Tag>, log: seq<Tag>) {
    && todo <= reg.Pending(tags) <= reg.deps.Keys && Consistent(reg, now, todo)
    && Resolve(reg, tags, reg.Pending(tags)) == Resolve(reg, now, todo)
    && Logged(reg, tags, reg.Pending(tags) - todo, now, log)
  }

  lemma ReachOn(reg: Registry, tags: set<Tag>, now: set<Tag>, todo: set<Tag>, log: seq<Tag>, ready: set<Tag>, more: seq<Tag>)
    requires reg.Valid() && Reached(reg, tags, now, todo, log) && ready == ReadyIn(reg, now, todo) && ready != {}
    requires Elems(more) == ready && |more| == |ready|
    ensures Reached(reg, tags, Round(reg, now, ready), todo - ready, log + more)
  {
    var all := reg.Pending(tags);
    RoundStep(reg, now, todo, ready);
    LogRound(reg, tags, all - todo, now, log, ready, more);
    assert (all - todo) + ready == all - (todo - ready);
  }

  /**
   The loop over rounds.  Its outcome does not depend on the order inside a round; no tag is
   applied twice, and none before its dependencies.
   */
  method Migrate(reg: Registry, tags: set<Tag>) returns (r: Outcome, log: seq<Tag>)
    requires reg.Valid()
    ensures reg.Pending(tags) <= reg.deps.Keys && r == Resolve(reg, tags, reg.Pending(tags))
    ensures ValidOrder(reg, tags, log) && |log| == |Elems(log)| && Takes(reg, tags, reg.Pending(tags), log)
    ensures r.Done? ==> Elems(log) == reg.Pending(tags)
  {
    var now, todo := tags, reg.Pending(tags);
    log := [];
    StartReached(reg, tags);
    while todo != {}
      invariant Reached(reg, tags, now, todo, log) && TakenSoFar(reg, tags, now, todo, log)
      decreases todo
    {
      var ready := ReadyIn(reg, now, todo);
      if ready == {} {
        Stopped(reg, tags, now, todo, log);
        return Aborted(now, todo), log;
      }
      assert Consistent(reg, now, ready);
      var ok, later, more := ApplyRound(reg, now, ready);
      if !ok {
        return KeyError, log;
      }
      ReachOn(reg, tags, now, todo, log, ready, more);
      TakeOn(reg, tags, now, todo, log, ready, more);
      now, log, todo := later, log + more, todo - ready;
    }
    Stopped(reg, tags, now, todo, log);
    r := Done(now);
  }

  lemma StartReached(reg: Registry, tags: set<Tag>)
    requires reg.Valid()
    ensures Reached(reg, tags, tags, reg.Pending(tags), []) && TakenSoFar(reg, tags, tags, reg.Pending(tags), [])
  {
    assert reg.Pending(tags) - reg.Pending(tags) == {};
    assert forall rest: seq<Tag> :: [] + rest == rest;
  }

  /** Where the loop stops, with nothing ready. */
  lemma Stopped(reg: Registry, tags: set<Tag>, now: set<Tag>, todo: set<Tag>, log: seq<Tag>)
    requires reg.Valid() && Reached(reg, tags, now, todo, log) && TakenSoFar(reg, tags, now, todo, log)
    requires ReadyIn(reg, now, todo) == {}
    ensures Resolve(reg, tags, reg.Pending(tags)) == if todo == {} then Done(now) else Aborted(now, todo)
    ensures ValidOrder(reg, tags, log) && |log| == |Elems(log)| && Takes(reg, tags, reg.Pending(tags), log)
    ensures todo == {} ==> Elems(log) == reg.Pending(tags)
  {
    TakenAll(reg, tags, now, todo, log);
    assert todo == {} ==> reg.Pending(tags) - todo == reg.Pending(tags);
  }

  // ----- What a successful migration leaves

  lemma {:induction false} ResolveOutcome(reg: Registry, tags: set<Tag>, todo: set<Tag>)
    requires reg.Valid() && todo <= reg.deps.Keys && Consistent(reg, tags, todo)
    ensures var r := Resolve(reg, tags, todo);
      && !r.KeyError?
      && (r.Done? ==> r.tags == Round(reg, tags, todo))
      && (r.Aborted? ==> {} < r.stuck <= todo && r.tags == Round(reg, tags, todo - r.stuck)
                         && ReadyIn(reg, r.tags, r.stuck) == {})
    decreases todo
  {
    if todo != {} {
      var ready := ReadyIn(reg, tags, todo);
      if ready != {} {
        var tags1, rest := Round(reg, tags, ready), todo - ready;
        assert rest < todo;
        ResolveOutcome(reg, tags1, rest);
        var r := Resolve(reg, tags1, rest);
        assert Round(reg, tags1, rest) == Round(reg, tags, todo);
        if r.Aborted? {
          assert Round(reg, tags1, rest - r.stuck) == Round(reg, tags, todo - r.stuck);
        }
      }
    }
  }

  /**
   A successful migration leaves exactly the old tags and all upgrade tags without the
   downgrade tags.  Tags it does not know are kept, and a second migration has nothing to do.
   */
  lemma MigrationResult(reg: Registry, tags: set<Tag>)
    requires reg.Valid() && reg.Pending(tags) <= reg.deps.Keys
    ensures !Resolve(reg, tags, reg.Pending(tags)).KeyError?
    ensures var r := Resolve(reg, tags, reg.Pending(tags));
      r.Done? ==>
        && r.tags == (tags + reg.ups) - reg.downs
        && tags - reg.deps.Keys == r.tags - reg.deps.Keys
        && reg.Pending(r.tags) == {}
  {
    ResolveOutcome(reg, tags, reg.Pending(tags));
  }

  /**
   A dependency is satisfied by the presence of its tag, also if that tag has a downgrader: once
   such a tag is gone, what depends on it is never applied and the migration aborts.
   */
  lemma {:induction false} GoneDowngradeBlocks(reg: Registry, tags: set<Tag>, todo: set<Tag>, t: Tag, d: Tag)
    requires reg.Valid() && todo <= reg.deps.Keys && t in todo && d in reg.deps[t] && d in reg.downs && d !in tags
    ensures Resolve(reg, tags, todo).Aborted? && t in Resolve(reg, tags, todo).stuck
    decreases todo
  {
    var ready := ReadyIn(reg, tags, todo);
    assert t !in ready;
    if ready != {} {
      assert todo - ready < todo;
      GoneDowngradeBlocks(reg, Round(reg, tags, ready), todo - ready, t, d);
    }
  }

  // ----- Depending on a tag with a downgrader

  /** The orders of application the loop can take: round after round, in any order inside a round. */
  ghost predicate Takes(reg: Registry, tags: set<Tag>, todo: set<Tag>, log: seq<Tag>)
    requires todo <= reg.deps.Keys
    decreases todo
  {
    var ready := ReadyIn(reg, tags, todo);
    if ready == {} then log == []
    else
      assert todo - ready < todo;
      |ready| <= |log| && Elems(log[..|ready|]) == ready && Takes(reg, Round(reg, tags, ready), todo - ready, log[|ready|..])
  }

  /** The tag applied at `k` comes after the removal of `d`, unless that was absent from the start. */
  predicate AfterRemoval(tags: set<Tag>, log: seq<Tag>, k: int, d: Tag)
    requires 0 <= k < |log|
  {
    d !in tags || d in log[..k]
  }

  ghost predicate RemovedFirst(reg: Registry, tags: set<Tag>, log: seq<Tag>) {
    forall k, d :: 0 <= k < |log| && log[k] in reg.deps && d in reg.deps[log[k]] * reg.downs ==> AfterRemoval(tags, log, k, d)
  }

  /**
   What the header of the script promises of a dependency on a tag with a downgrader: the migration
   is done, and whatever order it takes, nothing runs before the downgraders it depends on.
   */
  ghost predicate KeepsPromise(reg: Registry, tags: set<Tag>)
    requires reg.Pending(tags) <= reg.deps.Keys
  {
    && Resolve(reg, tags, reg.Pending(tags)).Done?
    && forall log :: Takes(reg, tags, reg.Pending(tags), log) ==> RemovedFirst(reg, tags, log)
  }

  lemma TakesRound(reg: Registry, tags: set<Tag>, todo: set<Tag>, ready: set<Tag>, first: seq<Tag>, rest: seq<Tag>)
    requires todo <= reg.deps.Keys && ready == ReadyIn(reg, tags, todo) && ready != {}
    requires Elems(first) == ready && |first| == |ready| && Takes(reg, Round(reg, tags, ready), todo - ready, rest)
    ensures Takes(reg, tags, todo, first + rest)
  {
    var log := first + rest;
    assert log[..|ready|] == first && log[|ready|..] == rest;
  }

  /** Going on from `now` completes an order the loop can take. */
  ghost predicate TakenSoFar(reg: Registry, tags: set<Tag>, now: set<Tag>, todo: set<Tag>, log: seq<Tag>)
    requires todo <= reg.deps.Keys && reg.Pending(tags) <= reg.deps.Keys
  {
    forall rest :: Takes(reg, now, todo, rest) ==> Takes(reg, tags, reg.Pending(tags), log + rest)
  }

  lemma TakeOn(reg: Registry, tags: set<Tag>, now: set<Tag>, todo: set<Tag>, log: seq<Tag>, ready: set<Tag>, more: seq<Tag>)
    requires todo <= reg.deps.Keys && reg.Pending(tags) <= reg.deps.Keys && TakenSoFar(reg, tags, now, todo, log)
    requires ready == ReadyIn(reg, now, todo) && ready != {} && Elems(more) == ready && |more| == |ready|
    ensures TakenSoFar(reg, tags, Round(reg, now, ready), todo - ready, log + more)
  {
    forall rest | Takes(reg, Round(reg, now, ready), todo - ready, rest)
      ensures Takes(reg, tags, reg.Pending(tags), log + more + rest)
    {
      TakesRound(reg, now, todo, ready, more, rest);
      assert log + more + rest == log + (more + rest);
    }
  }

  lemma TakenAll(reg: Registry, tags: set<Tag>, now: set<Tag>, todo: set<Tag>, log: seq<Tag>)
    requires todo <= reg.deps.Keys && reg.Pending(tags) <= reg.deps.Keys && TakenSoFar(reg, tags, now, todo, log)
    requires ReadyIn(reg, now, todo) == {}
    ensures Takes(reg, tags, reg.Pending(tags), log)
  {
    assert Takes(reg, now, todo, []);
    assert log + [] == log;
  }

  lemma {:induction false} SomeLog(reg: Registry, tags: set<Tag>, todo: set<Tag>) returns (log: seq<Tag>)
    requires todo <= reg.deps.Keys
    ensures Takes(reg, tags, todo, log)
    decreases todo
  {
    var ready := ReadyIn(reg, tags, todo);
    log := [];
    if ready != {} {
      assert todo - ready < todo;
      var first := Enumerate(ready);
      var rest := SomeLog(reg, Round(reg, tags, ready), todo - ready);
      TakesRound(reg, tags, todo, ready, first, rest);
      log := first + rest;
    }
  }

  lemma {:induction false} TakenAreTodo(reg: Registry, tags: set<Tag>, todo: set<Tag>, log: seq<Tag>)
    requires todo <= reg.deps.Keys && Takes(reg, tags, todo, log)
    ensures Elems(log) <= todo
    decreases todo
  {
    var ready := ReadyIn(reg, tags, todo);
    if ready != {} {
      assert todo - ready < todo;
      TakenAreTodo(reg, Round(reg, tags, ready), todo - ready, log[|ready|..]);
      assert log == log[..|ready|] + log[|ready|..];
      assert Elems(log) == Elems(log[..|ready|]) + Elems(log[|ready|..]);
    }
  }

  lemma FirstInRound(reg: Registry, tags: set<Tag>, todo: set<Tag>, ready: set<Tag>, t: Tag) returns (log: seq<Tag>)
    requires todo <= reg.deps.Keys && ready == ReadyIn(reg, tags, todo) && t in ready
    ensures Takes(reg, tags, todo, log) && |log| > 0 && log[0] == t
  {
    var others := Enumerate(ready - {t});
    assert Elems([t] + others) == {t} + Elems(others);
    var rest := SomeLog(reg, Round(reg, tags, ready), todo - ready);
    TakesRound(reg, tags, todo, ready, [t] + others, rest);
    log := [t] + others + rest;
  }

  lemma LaterInLog(first: seq<Tag>, rest: seq<Tag>, k: int, t: Tag, d: Tag)
    requires 0 <= k < |rest| && rest[k] == t && d !in rest[..k] && d !in Elems(first)
    ensures (first + rest)[|first| + k] == t && d !in (first + rest)[..|first| + k]
  {
    assert (first + rest)[..|first| + k] == first + rest[..k];
  }

  lemma StillPresent(reg: Registry, tags: set<Tag>, todo: set<Tag>, ready: set<Tag>, t: Tag, d: Tag)
    requires reg.Valid() && todo <= reg.deps.Keys && t in todo && d in reg.deps[t] * reg.downs && d in tags
    requires ready == ReadyIn(reg, tags, todo) && t !in ready && Resolve(reg, tags, todo).Done?
    ensures ready != {} && todo - ready < todo && d !in ready && d in Round(reg, tags, ready)
    ensures Resolve(reg, Round(reg, tags, ready), todo - ready).Done?
  {
    assert ready != {} && todo - ready < todo;
    if d in ready {
      GoneDowngradeBlocks(reg, Round(reg, tags, ready), todo - ready, t, d);
    }
  }

  /** If `t` is ever applied, some order applies it before the downgrader of a tag it depends on. */
  lemma {:induction false} TooEarly(reg: Registry, tags: set<Tag>, todo: set<Tag>, t: Tag, d: Tag)
    returns (log: seq<Tag>, k: int)
    requires reg.Valid() && todo <= reg.deps.Keys && t in todo && d in reg.deps[t] * reg.downs && d in tags
    requires Resolve(reg, tags, todo).Done?
    ensures Takes(reg, tags, todo, log) && 0 <= k < |log| && log[k] == t && d !in log[..k]
    decreases todo
  {
    var ready := ReadyIn(reg, tags, todo);
    if t in ready {
      log := FirstInRound(reg, tags, todo, ready, t);
      k := 0;
    } else {
      StillPresent(reg, tags, todo, ready, t, d);
      var first := Enumerate(ready);
      var rest, at := TooEarly(reg, Round(reg, tags, ready), todo - ready, t, d);
      TakesRound(reg, tags, todo, ready, first, rest);
      LaterInLog(first, rest, at, t, d);
      log, k := first + rest, |first| + at;
    }
  }

  /**
   The promise is kept exactly if the migration is done and nothing that is pending depends on a
   tag with a downgrader: a dependency of that kind either blocks or comes too late.
   */
  lemma PromiseKeptIffUnused(reg: Registry, tags: set<Tag>)
    requires reg.Valid() && reg.Pending(tags) <= reg.deps.Keys
    ensures KeepsPromise(reg, tags) <==>
      && Resolve(reg, tags, reg.Pending(tags)).Done?
      && forall t :: t in reg.Pending(tags) ==> reg.deps[t] * reg.downs == {}
  {
    var todo := reg.Pending(tags);
    if Resolve(reg, tags, todo).Done? {
      if forall t :: t in todo ==> reg.deps[t] * reg.downs == {} {
        forall log | Takes(reg, tags, todo, log)
          ensures RemovedFirst(reg, tags, log)
        {
          TakenAreTodo(reg, tags, todo, log);
          assert forall k :: 0 <= k < |log| ==> log[k] in Elems(log);
        }
      } else {
        var t :| t in todo && reg.deps[t] * reg.downs != {};
        var d :| d in reg.deps[t] * reg.downs;
        BreaksPromise(reg, tags, todo, t, d);
      }
    }
  }

  lemma BreaksPromise(reg: Registry, tags: set<Tag>, todo: set<Tag>, t: Tag, d: Tag)
    requires reg.Valid() && todo <= reg.deps.Keys && t in todo && d in reg.deps[t] * reg.downs
    requires Resolve(reg, tags, todo).Done?
    ensures exists log :: Takes(reg, tags, todo, log) && !RemovedFirst(reg, tags, log)
  {
    if d !in tags {
      GoneDowngradeBlocks(reg, tags, todo, t, d);
    }
    var log, k := TooEarly(reg, tags, todo, t, d);
    assert !AfterRemoval(tags, log, k, d);
  }

  /** An upgrader "t" that depends on "d", which has a downgrader. */
  function OneEach(): Registry {
    Registry({"t"}, {"d"}, map["t" := {"d"}, "d" := {}])
  }

  /** Without "d", for which the header demands nothing more, "t" cannot be applied. */
  lemma AbsentBlocks()
    ensures OneEach().Valid() && OneEach().Pending({}) == {"t"}
    ensures Resolve(OneEach(), {}, {"t"}) == Aborted({}, {"t"})
  {
    assert ReadyIn(OneEach(), {}, {"t"}) == {};
  }

  lemma FirstRoundTakesBoth()
    ensures OneEach().Valid() && OneEach().Pending({"d"}) == {"t", "d"} && ReadyIn(OneEach(), {"d"}, {"t", "d"}) == {"t", "d"}
    ensures Round(OneEach(), {"d"}, {"t", "d"}) == {"t"}
  {
  }

  /** With "d", the order that applies "t" first is one the loop can take. */
  lemma PresentComesTooLate()
    ensures OneEach().Valid() && OneEach().Pending({"d"}) == {"t", "d"}
    ensures Resolve(OneEach(), {"d"}, {"t", "d"}) == Done({"t"})
    ensures Takes(OneEach(), {"d"}, {"t", "d"}, ["t", "d"]) && !RemovedFirst(OneEach(), {"d"}, ["t", "d"])
  {
    FirstRoundTakesBoth();
    var reg, all, log := OneEach(), {"t", "d"}, ["t", "d"];
    assert all - all == {};
    assert Takes(reg, {"t"}, {}, []);
    assert Elems(log) == all;
    TakesRound(reg, {"d"}, all, all, log, []);
    assert log + [] == log;
    assert !AfterRemoval({"d"}, log, 0, "d");
  }

  // ----- When it succeeds

  predicate OrderedAt(reg: Registry, tags: set<Tag>, order: seq<Tag>, i: int)
    requires 0 <= i < |order|
  {
    order[i] in reg.deps && reg.deps[order[i]] <= tags + Elems(order[..i])
  }

  /** An order of tags in which each finds its dependencies among `tags` and the tags before it. */
  ghost predicate ValidOrder(reg: Registry, tags: set<Tag>, order: seq<Tag>) {
    forall i :: 0 <= i < |order| ==> OrderedAt(reg, tags, order, i)
  }

  function Elems(s: seq<Tag>): set<Tag> {
    set t | t in s
  }

  /** `t` can be reached by applying upgraders from `todo` in a valid order. */
  ghost predicate Derivable(reg: Registry, tags: set<Tag>, todo: set<Tag>, t: Tag) {
    exists order :: ValidOrder(reg, tags, order) && Elems(order) <= todo && t in order
  }

  /** Some order of a set of tags. */
  lemma {:induction false} Enumerate(s: set<Tag>) returns (order: seq<Tag>)
    ensures Elems(order) == s && |order| == |s|
  {
    if s == {} {
      order := [];
    } else {
      var t :| t in s;
      var rest := Enumerate(s - {t});
      order := rest + [t];
      assert Elems(order) == Elems(rest) + {t};
    }
  }

  lemma ExtendOrder(reg: Registry, tags: set<Tag>, order: seq<Tag>, more: seq<Tag>)
    requires ValidOrder(reg, tags, order) && ValidOrder(reg, tags + Elems(order), more)
    ensures ValidOrder(reg, tags, order + more) && Elems(order + more) == Elems(order) + Elems(more)
  {
    var all := order + more;
    forall i | 0 <= i < |all|
      ensures OrderedAt(reg, tags, all, i)
    {
      if i < |order| {
        assert OrderedAt(reg, tags, order, i);
        assert all[..i] == order[..i];
      } else {
        assert OrderedAt(reg, tags + Elems(order), more, i - |order|);
        assert all[..i] == order + more[..i - |order|];
        assert Elems(all[..i]) == Elems(order) + Elems(more[..i - |order|]);
        assert all[i] == more[i - |order|];
      }
    }
  }

  lemma ReadyInAnyOrder(reg: Registry, tags: set<Tag>, order: seq<Tag>)
    requires forall t :: t in order ==> t in reg.deps && reg.deps[t] <= tags
    ensures ValidOrder(reg, tags, order)
  {
    forall i | 0 <= i < |order|
      ensures OrderedAt(reg, tags, order, i)
    {
      assert order[i] in order;
    }
  }

  lemma EnumerateReady(reg: Registry, tags: set<Tag>, ready: set<Tag>) returns (order: seq<Tag>)
    requires forall t :: t in ready ==> t in reg.deps && reg.deps[t] <= tags
    ensures Elems(order) == ready && ValidOrder(reg, tags, order)
  {
    order := Enumerate(ready);
    forall t | t in order
      ensures t in reg.deps && reg.deps[t] <= tags
    {
      assert t in Elems(order);
    }
    ReadyInAnyOrder(reg, tags, order);
  }

  /** What has been applied when the loop ends, in a valid order. */
  lemma {:induction false} AppliedOrder(reg: Registry, tags: set<Tag>, todo: set<Tag>) returns (order: seq<Tag>)
    requires reg.Valid() && todo <= reg.ups && todo !! tags
    ensures ValidOrder(reg, tags, order)
    ensures var r := Resolve(reg, tags, todo);
      && !r.KeyError? && r.tags == tags + Elems(order)
      && Elems(order) == if r.Done? then todo else todo - r.stuck
    decreases todo
  {
    ResolveOutcome(reg, tags, todo);
    order := [];
    if todo != {} {
      var ready := ReadyIn(reg, tags, todo);
      if ready != {} {
        var tags1 := Round(reg, tags, ready);
        assert tags1 == tags + ready;
        assert todo - ready < todo;
        var first := EnumerateReady(reg, tags, ready);
        var rest := AppliedOrder(reg, tags1, todo - ready);
        ExtendOrder(reg, tags, first, rest);
        order := first + rest;
      }
    }
  }

  /** Nothing in `stuck` can be derived if nothing in it is ready once all else has been applied. */
  lemma {:induction false} DerivableInside(reg: Registry, tags: set<Tag>, todo: set<Tag>, stuck: set<Tag>, order: seq<Tag>)
    requires todo <= reg.deps.Keys && stuck <= todo && ReadyIn(reg, tags + (todo - stuck), stuck) == {}
    requires ValidOrder(reg, tags, order) && Elems(order) <= todo
    ensures Elems(order) <= todo - stuck
  {
    if order != [] {
      var front, last := order[..|order| - 1], order[|order| - 1];
      forall i | 0 <= i < |front|
        ensures OrderedAt(reg, tags, front, i)
      {
        assert OrderedAt(reg, tags, order, i) && front[..i] == order[..i];
      }
      assert OrderedAt(reg, tags, order, |order| - 1);
      assert Elems(order) == Elems(front) + {last} by {
        assert order == front + [last];
      }
      DerivableInside(reg, tags, todo, stuck, front);
      assert reg.Ready(last, tags + (todo - stuck));
      assert last !in ReadyIn(reg, tags + (todo - stuck), stuck);
    }
  }

  /**
   With no downgrader pending: the tags reported on abort are exactly those that no valid order
   of upgraders reaches.
   */
  lemma StuckAreUnderivable(reg: Registry, tags: set<Tag>)
    requires reg.Valid() && reg.downs !! tags && reg.Pending(tags) <= reg.deps.Keys
    ensures var r := Resolve(reg, tags, reg.Pending(tags));
      && !r.KeyError?
      && (forall t :: t in reg.Pending(tags) ==>
            (Derivable(reg, tags, reg.Pending(tags), t) <==> !(r.Aborted? && t in r.stuck)))
  {
    var todo := reg.Pending(tags);
    ResolveOutcome(reg, tags, todo);
    var r := Resolve(reg, tags, todo);
    var order := AppliedOrder(reg, tags, todo);
    forall t | t in todo
      ensures Derivable(reg, tags, todo, t) <==> !(r.Aborted? && t in r.stuck)
    {
      if !(r.Aborted? && t in r.stuck) {
        assert t in Elems(order);
        assert Derivable(reg, tags, todo, t);
      } else {
        assert r.tags == tags + (todo - r.stuck);
        forall o | ValidOrder(reg, tags, o) && Elems(o) <= todo
          ensures t !in o
        {
          DerivableInside(reg, tags, todo, r.stuck, o);
          assert t !in Elems(o);
        }
      }
    }
  }

  /** With no downgrader pending: migration succeeds exactly if some order of the missing tags respects all dependencies. */
  lemma SucceedsIffOrderable(reg: Registry, tags: set<Tag>)
    requires reg.Valid() && reg.downs !! tags && reg.Pending(tags) <= reg.deps.Keys
    ensures Resolve(reg, tags, reg.Pending(tags)).Done? <==>
      exists order :: ValidOrder(reg, tags, order) && Elems(order) == reg.Pending(tags)
  {
    var todo := reg.Pending(tags);
    StuckAreUnderivable(reg, tags);
    ResolveOutcome(reg, tags, todo);
    var r := Resolve(reg, tags, todo);
    if r.Done? {
      var order := AppliedOrder(reg, tags, todo);
    } else {
      var t :| t in r.stuck;
      forall order | ValidOrder(reg, tags, order) && Elems(order) <= todo
        ensures t !in Elems(order)
      {
        assert t in order ==> Derivable(reg, tags, todo, t);
      }
    }
  }

  // ----- Loading the upgraders

  class Loader {
    var ups: set<Tag>
    var downs: set<Tag>
    var depends: map<Tag, seq<Tag>>
    var forward: map<Tag, seq<Tag>>
    var legacy: map<int, Tag>

    constructor ()
      ensures ups == {} && downs == {} && depends == map[] && forward == map[] && legacy == map[]
    {
      ups, downs, depends, forward, legacy := {}, {}, map[], map[], map[];
    }

    /** The tables agree on the known tags. */
    ghost predicate Valid()
      reads this
    {
      && depends.Keys == forward.Keys == ups + downs && ups !! downs
      && (forall n :: n in legacy ==> legacy[n] in depends)
      && forall n, k :: n in legacy && k in legacy && n != k ==> legacy[n] != legacy[k]
    }

    /** What the migration loop works with. */
    function Built(): Registry
      reads this
    {
      RegistryOf(ups, downs, depends)
    }

    /** One upgrader file; a tag should only be used once, but a second file just replaces the first. */
    method Register(u: Upgrader)
      modifies this
      ensures old(Valid()) && u.tag !in old(depends) ==> Valid()
      ensures ups == old(ups) + (if u.upgrades then {u.tag} else {})
      ensures downs == old(downs) + (if u.upgrades then {} else {u.tag})
      ensures depends == old(depends)[u.tag := u.depends] && forward == old(forward)[u.tag := u.fwdDepends]
      ensures legacy == if u.version.Legacy? then old(legacy)[u.version.n := u.tag] else old(legacy)
    {
      if u.upgrades {
        ups := ups + {u.tag};
      } else {
        downs := downs + {u.tag};
      }
      if u.version.Legacy? {
        legacy := legacy[u.version.n := u.tag];
      }
      depends := depends[u.tag := u.depends];
      forward := forward[u.tag := u.fwdDepends];
    }

    /** Makes each legacy version from 3 on, up to the first gap, depend on exactly the one before. */
    method LinkLegacy() returns (ok: bool, end: int)
      requires Valid()
      modifies this`depends
      ensures Valid() && depends.Keys == old(depends).Keys
      ensures ok <==> (3 in legacy ==> 2 in legacy)
      ensures ok ==> end >= 3 && end !in legacy && ChainedTo(legacy, old(depends), depends, end)
    {
      var i := 3;
      while i in legacy
        invariant i >= 3 && Valid() && depends.Keys == old(depends).Keys
        invariant i > 3 ==> 2 in legacy && i - 1 in legacy
        invariant ChainedTo(legacy, old(depends), depends, i)
        decreases set k | k in legacy && k >= i
      {
        if i - 1 !in legacy {
          return false, i;
        }
        ghost var above := set k | k in legacy && k >= i;
        assert i in above;
        ChainOn(legacy, old(depends), depends, i);
        depends := depends[legacy[i] := [legacy[i - 1]]];
        i := i + 1;
        assert (set k | k in legacy && k >= i) < above;
      }
      ok, end := true, i;
    }

    /** Turns the forward dependencies of `tag` round. */
    method TurnRound(tag: Tag) returns (ok: bool)
      requires Valid() && tag in depends
      modifies this`depends
      ensures Valid() && depends.Keys == old(depends).Keys
      ensures ok <==> Elems(forward[tag]) <= depends.Keys
      ensures ok ==> Given(old(depends), depends, tag, forward[tag])
    {
      ok := true;
      var fds := forward[tag];
      ghost var before := depends;
      for k := 0 to |fds|
        invariant Given(before, depends, tag, fds[..k]) && Elems(fds[..k]) <= before.Keys
      {
        if fds[k] !in depends {
          assert fds[k] in Elems(fds);
          return false;
        }
        GiveOne(before, depends, tag, fds[..k], fds[k]);
        assert fds[..k + 1] == fds[..k] + [fds[k]];
        depends := depends[fds[k] := depends[fds[k]] + [tag]];
      }
      assert fds[..|fds|] == fds;
    }

    /** Whether all dependencies of `tag` are known. */
    method Audit(tag: Tag) returns (ok: bool)
      requires tag in depends
      ensures ok <==> Elems(depends[tag]) <= depends.Keys
    {
      ok := true;
      var ds := depends[tag];
      for k := 0 to |ds|
        invariant forall j :: 0 <= j < k ==> ds[j] in depends
      {
        if ds[k] !in depends {
          assert ds[k] in Elems(ds);
          return false;
        }
      }
    }

    /** Turns the forward dependencies of one tag round and checks its own. */
    method Visit(tag: Tag, ghost base: map<Tag, seq<Tag>>, ghost done: set<Tag>) returns (ok: bool)
      requires Valid() && tag in depends && done <= depends.Keys && Turned(base, forward, depends, done)
      modifies this`depends
      ensures Valid() && depends.Keys == base.Keys
      ensures ok <==> Known(forward, base, tag)
      ensures ok ==> Turned(base, forward, depends, done + {tag})
    {
      ghost var before := depends;
      ok := TurnRound(tag);
      if ok {
        TurnOn(base, forward, before, depends, done, tag);
        AuditIsOfBase(base, forward, depends, done + {tag}, tag);
        ok := Audit(tag);
      }
    }

    /** Visits the tags in any order; fails on an unknown tag. */
    method ResolveForward() returns (ok: bool)
      requires Valid()
      modifies this`depends
      ensures Valid() && depends.Keys == old(depends).Keys
      ensures ok <==> AllKnown(forward, old(depends), old(depends).Keys)
      ensures ok ==> Turned(old(depends), forward, depends, depends.Keys)
    {
      ghost var base, done: set<Tag> := depends, {};
      StartTurned(base, forward);
      var left := depends.Keys;
      while left != {}
        invariant Valid() && depends.Keys == base.Keys && left <= base.Keys && Splits(base.Keys, done, left)
        invariant AllKnown(forward, base, done) && Turned(base, forward, depends, done)
        decreases left
      {
        var tag :| tag in left;
        ok := Visit(tag, base, done);
        if !ok {
          return;
        }
        SplitOn(base.Keys, done, left, tag);
        left := left - {tag};
        done := done + {tag};
      }
      ok := true;
    }
  }

  predicate Splits(all: set<Tag>, done: set<Tag>, left: set<Tag>) {
    done + left == all
  }

  lemma SplitOn(all: set<Tag>, done: set<Tag>, left: set<Tag>, tag: Tag)
    requires Splits(all, done, left) && tag in left
    ensures Splits(all, done + {tag}, left - {tag})
  {
    assert (done + {tag}) + (left - {tag}) == done + left;
  }

  // ----- What loading establishes

  /** Legacy version `i` depends on exactly the version before. */
  predicate Chained(legacy: map<int, Tag>, depends: map<Tag, seq<Tag>>, i: int) {
    i in legacy && i - 1 in legacy && legacy[i] in depends && depends[legacy[i]] == [legacy[i - 1]]
  }

  /** Versions 3 up to `end` are chained, and nothing else has changed since `base`. */
  ghost predicate ChainedTo(legacy: map<int, Tag>, base: map<Tag, seq<Tag>>, depends: map<Tag, seq<Tag>>, end: int) {
    && (forall i :: 3 <= i < end ==> Chained(legacy, depends, i))
    && forall t :: t in depends && t in base && (forall i :: 3 <= i < end && i in legacy ==> legacy[i] != t) ==>
         depends[t] == base[t]
  }

  lemma ChainOn(legacy: map<int, Tag>, base: map<Tag, seq<Tag>>, depends: map<Tag, seq<Tag>>, i: int)
    requires ChainedTo(legacy, base, depends, i) && i >= 3 && i in legacy && i - 1 in legacy && legacy[i] in depends
    requires forall n, k :: n in legacy && k in legacy && n != k ==> legacy[n] != legacy[k]
    ensures ChainedTo(legacy, base, depends[legacy[i] := [legacy[i - 1]]], i + 1)
  {
    var next := depends[legacy[i] := [legacy[i - 1]]];
    forall j | 3 <= j < i + 1
      ensures Chained(legacy, next, j)
    {
      assert j < i ==> Chained(legacy, depends, j);
    }
  }

  /** The tags in `done` that name `t` as a forward dependency. */
  function Forwarders(forward: map<Tag, seq<Tag>>, done: set<Tag>, t: Tag): set<Tag> {
    set s | s in done && s in forward && t in forward[s]
  }

  /** All tags that `t` names are known. */
  predicate Known(forward: map<Tag, seq<Tag>>, base: map<Tag, seq<Tag>>, t: Tag) {
    t in forward && t in base && Elems(forward[t]) <= base.Keys && Elems(base[t]) <= base.Keys
  }

  ghost predicate AllKnown(forward: map<Tag, seq<Tag>>, base: map<Tag, seq<Tag>>, done: set<Tag>) {
    forall t :: t in done ==> Known(forward, base, t)
  }

  /** `t` depends on its own dependencies in `base` and on the tags in `done` that name it. */
  predicate TurnedAt(base: map<Tag, seq<Tag>>, forward: map<Tag, seq<Tag>>, depends: map<Tag, seq<Tag>>, done: set<Tag>, t: Tag)
    requires t in base && t in depends
  {
    Elems(depends[t]) == Elems(base[t]) + Forwarders(forward, done, t)
  }

  ghost predicate Turned(base: map<Tag, seq<Tag>>, forward: map<Tag, seq<Tag>>, depends: map<Tag, seq<Tag>>, done: set<Tag>) {
    depends.Keys == base.Keys && forall t :: t in depends ==> TurnedAt(base, forward, depends, done, t)
  }

  lemma StartTurned(base: map<Tag, seq<Tag>>, forward: map<Tag, seq<Tag>>)
    ensures Turned(base, forward, base, {})
  {
  }

  lemma ForwarderSnoc(forward: map<Tag, seq<Tag>>, done: set<Tag>, tag: Tag, t: Tag)
    requires tag in forward
    ensures Forwarders(forward, done + {tag}, t) == Forwarders(forward, done, t) + if t in forward[tag] then {tag} else {}
  {
  }

  /** Each of `to` has been given the dependency on `tag`; nothing else has changed. */
  ghost predicate Given(before: map<Tag, seq<Tag>>, after: map<Tag, seq<Tag>>, tag: Tag, to: seq<Tag>) {
    && after.Keys == before.Keys
    && forall t :: t in after ==> Elems(after[t]) == Elems(before[t]) + if t in to then {tag} else {}
  }

  lemma GiveOne(before: map<Tag, seq<Tag>>, after: map<Tag, seq<Tag>>, tag: Tag, to: seq<Tag>, t: Tag)
    requires Given(before, after, tag, to) && t in after
    ensures Given(before, after[t := after[t] + [tag]], tag, to + [t])
  {
    ElemsSnoc(after[t], tag);
  }

  lemma TurnOn(base: map<Tag, seq<Tag>>, forward: map<Tag, seq<Tag>>, depends: map<Tag, seq<Tag>>,
               next: map<Tag, seq<Tag>>, done: set<Tag>, tag: Tag)
    requires Turned(base, forward, depends, done) && tag in forward && Given(depends, next, tag, forward[tag])
    ensures Turned(base, forward, next, done + {tag})
  {
    forall t | t in next
      ensures TurnedAt(base, forward, next, done + {tag}, t)
    {
      assert TurnedAt(base, forward, depends, done, t);
      ForwarderSnoc(forward, done, tag, t);
    }
  }

  lemma AuditIsOfBase(base: map<Tag, seq<Tag>>, forward: map<Tag, seq<Tag>>, depends: map<Tag, seq<Tag>>, done: set<Tag>, tag: Tag)
    requires Turned(base, forward, depends, done) && tag in depends && done <= depends.Keys
    ensures Elems(depends[tag]) <= depends.Keys <==> Elems(base[tag]) <= base.Keys
  {
    assert TurnedAt(base, forward, depends, done, tag);
    assert Forwarders(forward, done, tag) <= done;
  }

  ghost predicate DistinctTags(files: seq<Upgrader>) {
    forall i, j :: 0 <= i < j < |files| ==> files[i].tag != files[j].tag
  }

  /** The tables hold what the files say. */
  ghost predicate Holds(files: seq<Upgrader>, depends: map<Tag, seq<Tag>>, forward: map<Tag, seq<Tag>>) {
    && (forall u :: u in files ==>
          u.tag in depends && u.tag in forward && depends[u.tag] == u.depends && forward[u.tag] == u.fwdDepends)
    && forall t :: t in depends ==> exists u :: u in files && u.tag == t
  }

  /** Of two files with the same legacy version the later one counts. */
  function LegacyOf(files: seq<Upgrader>): map<int, Tag> {
    if files == [] then map[]
    else
      var u, front := files[|files| - 1], LegacyOf(files[..|files| - 1]);
      if u.version.Legacy? then front[u.version.n := u.tag] else front
  }

  function TagsOf(files: seq<Upgrader>, upgrades: bool): set<Tag> {
    set u | u in files && u.upgrades == upgrades :: u.tag
  }

  /** `t` is the tag of a linked legacy version: from 3 on, up to the first gap. */
  ghost predicate LinkedVersion(legacy: map<int, Tag>, end: int, t: Tag) {
    exists i :: 3 <= i < end && i in legacy && legacy[i] == t
  }

  /** What a file depends on of its own: the version before if it is linked, else what it says. */
  ghost function OwnDepends(legacy: map<int, Tag>, end: int, u: Upgrader): set<Tag> {
    if LinkedVersion(legacy, end, u.tag) then
      var i :| 3 <= i < end && i in legacy && legacy[i] == u.tag;
      if i - 1 in legacy then {legacy[i - 1]} else {}
    else Elems(u.depends)
  }

  /** The files that name `t` as a forward dependency. */
  function NamedBy(files: seq<Upgrader>, t: Tag): set<Tag> {
    set u | u in files && t in u.fwdDepends :: u.tag
  }

  predicate FirstGap(legacy: map<int, Tag>, end: int) {
    end >= 3 && end !in legacy && forall i :: 3 <= i < end ==> i in legacy
  }

  lemma ChainIsGap(legacy: map<int, Tag>, said: map<Tag, seq<Tag>>, base: map<Tag, seq<Tag>>, end: int)
    requires ChainedTo(legacy, said, base, end) && end >= 3 && end !in legacy
    ensures FirstGap(legacy, end)
  {
    forall i | 3 <= i < end
      ensures i in legacy
    {
      assert Chained(legacy, base, i);
    }
  }

  /** All that the file names is known. */
  ghost predicate FileKnown(files: seq<Upgrader>, legacy: map<int, Tag>, end: int, u: Upgrader) {
    var all := TagsOf(files, true) + TagsOf(files, false);
    Elems(u.fwdDepends) <= all && OwnDepends(legacy, end, u) <= all
  }

  /** The tables after registering `files`. */
  ghost predicate Registered(files: seq<Upgrader>, ups: set<Tag>, downs: set<Tag>, legacy: map<int, Tag>) {
    ups == TagsOf(files, true) && downs == TagsOf(files, false) && legacy == LegacyOf(files)
  }

  lemma RegisterOne(files: seq<Upgrader>, k: nat, ups: set<Tag>, downs: set<Tag>, legacy: map<int, Tag>)
    requires k < |files| && Registered(files[..k], ups, downs, legacy)
    ensures var u := files[k];
      Registered(files[..k + 1], ups + (if u.upgrades then {u.tag} else {}), downs + (if u.upgrades then {} else {u.tag}),
                 if u.version.Legacy? then legacy[u.version.n := u.tag] else legacy)
  {
    assert files[..k + 1] == files[..k] + [files[k]];
    assert files[..k + 1][..k] == files[..k];
  }

  method RegisterAll(files: seq<Upgrader>) returns (loader: Loader)
    requires DistinctTags(files)
    ensures fresh(loader) && loader.Valid() && Holds(files, loader.depends, loader.forward)
    ensures Registered(files, loader.ups, loader.downs, loader.legacy)
  {
    loader := new Loader();
    for k := 0 to |files|
      invariant fresh(loader) && loader.Valid()
      invariant Holds(files[..k], loader.depends, loader.forward)
      invariant Registered(files[..k], loader.ups, loader.downs, loader.legacy)
    {
      HoldsOn(files, k, loader.depends, loader.forward);
      RegisterOne(files, k, loader.ups, loader.downs, loader.legacy);
      loader.Register(files[k]);
    }
    assert files[..|files|] == files;
  }

  /**
   Registers all files, links the legacy versions and resolves the forward dependencies.  Loading
   fails exactly if version 3 is there without version 2 or a file names an unknown tag.
   */
  method LoadAll(files: seq<Upgrader>) returns (ok: bool, loader: Loader, end: int)
    requires DistinctTags(files)
    ensures fresh(loader) && loader.Valid() && Registered(files, loader.ups, loader.downs, loader.legacy)
    ensures (3 in loader.legacy ==> 2 in loader.legacy) ==> FirstGap(loader.legacy, end)
    ensures ok <==> (3 in loader.legacy ==> 2 in loader.legacy) && forall u :: u in files ==> FileKnown(files, loader.legacy, end, u)
    ensures ok ==> loader.Built().Valid() && forall u :: u in files ==>
      u.tag in loader.Built().deps && loader.Built().deps[u.tag] == OwnDepends(loader.legacy, end, u) + NamedBy(files, u.tag)
    ensures ok ==> forall i :: 3 <= i < end ==> ChainedIn(loader.legacy, loader.Built(), i)
  {
    loader := RegisterAll(files);
    ghost var said := loader.depends;
    ok, end := loader.LinkLegacy();
    if !ok {
      return;
    }
    ChainIsGap(loader.legacy, said, loader.depends, end);
    ghost var base, forward := loader.depends, loader.forward;
    KnownIsOfFiles(files, loader.legacy, end, said, base, forward);
    ok := loader.ResolveForward();
    if ok {
      LoadedChain(loader.legacy, base, forward, loader.depends, end);
      LoadedDepends(files, loader.legacy, end, said, base, forward, loader.depends);
    }
  }

  lemma OwnIsOfBase(files: seq<Upgrader>, legacy: map<int, Tag>, end: int, said: map<Tag, seq<Tag>>,
                    base: map<Tag, seq<Tag>>, forward: map<Tag, seq<Tag>>, u: Upgrader)
    requires Holds(files, said, forward) && ChainedTo(legacy, said, base, end) && base.Keys == said.Keys && u in files
    ensures u.tag in base && Elems(base[u.tag]) == OwnDepends(legacy, end, u)
  {
    if LinkedVersion(legacy, end, u.tag) {
      var i :| 3 <= i < end && i in legacy && legacy[i] == u.tag &&
        OwnDepends(legacy, end, u) == if i - 1 in legacy then {legacy[i - 1]} else {};
      assert Chained(legacy, base, i);
      assert Elems([legacy[i - 1]]) == {legacy[i - 1]};
    }
  }

  lemma HeldTags(files: seq<Upgrader>, said: map<Tag, seq<Tag>>, forward: map<Tag, seq<Tag>>)
    requires Holds(files, said, forward)
    ensures said.Keys == TagsOf(files, true) + TagsOf(files, false)
  {
    forall t | t in said
      ensures t in TagsOf(files, true) + TagsOf(files, false)
    {
      var u :| u in files && u.tag == t;
    }
  }

  lemma KnownIsOfFiles(files: seq<Upgrader>, legacy: map<int, Tag>, end: int, said: map<Tag, seq<Tag>>,
                       base: map<Tag, seq<Tag>>, forward: map<Tag, seq<Tag>>)
    requires Holds(files, said, forward) && ChainedTo(legacy, said, base, end) && base.Keys == said.Keys
    ensures AllKnown(forward, base, base.Keys) <==> forall u :: u in files ==> FileKnown(files, legacy, end, u)
  {
    HeldTags(files, said, forward);
    forall u | u in files
      ensures u.tag in base && (Known(forward, base, u.tag) <==> FileKnown(files, legacy, end, u))
    {
      OwnIsOfBase(files, legacy, end, said, base, forward, u);
    }
    forall t | t in base
      ensures exists u :: u in files && u.tag == t
    {
      assert t in said;
    }
  }

  lemma ForwardersAre(files: seq<Upgrader>, said: map<Tag, seq<Tag>>, forward: map<Tag, seq<Tag>>, t: Tag)
    requires Holds(files, said, forward)
    ensures Forwarders(forward, said.Keys, t) == NamedBy(files, t)
  {
    forall s | s in Forwarders(forward, said.Keys, t)
      ensures s in NamedBy(files, t)
    {
      var u :| u in files && u.tag == s;
    }
  }

  lemma LoadedDepends(files: seq<Upgrader>, legacy: map<int, Tag>, end: int, said: map<Tag, seq<Tag>>,
                      base: map<Tag, seq<Tag>>, forward: map<Tag, seq<Tag>>, depends: map<Tag, seq<Tag>>)
    requires Holds(files, said, forward) && ChainedTo(legacy, said, base, end) && base.Keys == said.Keys
    requires Turned(base, forward, depends, depends.Keys)
    ensures forall u :: u in files ==>
      u.tag in depends && Elems(depends[u.tag]) == OwnDepends(legacy, end, u) + NamedBy(files, u.tag)
  {
    forall u | u in files
      ensures u.tag in depends && Elems(depends[u.tag]) == OwnDepends(legacy, end, u) + NamedBy(files, u.tag)
    {
      OwnIsOfBase(files, legacy, end, said, base, forward, u);
      assert TurnedAt(base, forward, depends, depends.Keys, u.tag);
      ForwardersAre(files, said, forward, u.tag);
    }
  }

  lemma HoldsOn(files: seq<Upgrader>, k: nat, depends: map<Tag, seq<Tag>>, forward: map<Tag, seq<Tag>>)
    requires DistinctTags(files) && k < |files| && Holds(files[..k], depends, forward)
    ensures files[k].tag !in depends
    ensures Holds(files[..k + 1], depends[files[k].tag := files[k].depends], forward[files[k].tag := files[k].fwdDepends])
  {
    assert files[..k + 1] == files[..k] + [files[k]];
    forall t | t in depends
      ensures exists u :: u in files[..k + 1] && u.tag == t
    {
      var u :| u in files[..k] && u.tag == t;
      assert u in files[..k + 1];
    }
    assert files[k] in files[..k + 1];
  }

  /** In the registry legacy version `i` depends on the version before. */
  predicate ChainedIn(legacy: map<int, Tag>, reg: Registry, i: int) {
    i in legacy && i - 1 in legacy && legacy[i] in reg.deps && legacy[i - 1] in reg.deps[legacy[i]]
  }

  function RegistryOf(ups: set<Tag>, downs: set<Tag>, depends: map<Tag, seq<Tag>>): Registry {
    Registry(ups, downs, map t | t in depends :: Elems(depends[t]))
  }

  lemma LoadedChain(legacy: map<int, Tag>, base: map<Tag, seq<Tag>>, forward: map<Tag, seq<Tag>>, depends: map<Tag, seq<Tag>>, end: int)
    requires (forall i :: 3 <= i < end ==> Chained(legacy, base, i)) && Turned(base, forward, depends, depends.Keys)
    ensures forall ups, downs, i :: 3 <= i < end ==> ChainedIn(legacy, RegistryOf(ups, downs, depends), i)
  {
    forall ups, downs, i | 3 <= i < end
      ensures ChainedIn(legacy, RegistryOf(ups, downs, depends), i)
    {
      assert Chained(legacy, base, i);
      assert TurnedAt(base, forward, depends, depends.Keys, legacy[i]);
      assert legacy[i - 1] in base[legacy[i]];
    }
  }

  // ----- Legacy versions

  /** A checkpoint with legacy version `ver` has the tags of versions 2 to `ver`; a missing one is a `KeyError`. */
  method LegacyTags(legacy: map<int, Tag>, ver: int) returns (ok: bool, tags: set<Tag>)
    ensures ok <==> forall i :: 2 <= i <= ver ==> i in legacy
    ensures ok ==> tags == set i | i in legacy && 2 <= i <= ver :: legacy[i]
  {
    ok, tags := true, {};
    var i := 2;
    while i <= ver
      invariant 2 <= i && (i <= ver + 1 || i == 2)
      invariant forall j :: 2 <= j < i ==> j in legacy
      invariant tags == set j | j in legacy && 2 <= j < i :: legacy[j]
    {
      if i !in legacy {
        return false, tags;
      }
      tags := tags + {legacy[i]};
      i := i + 1;
    }
  }

  predicate HasBelow(legacy: map<int, Tag>, tags: set<Tag>, v: int) {
    v in legacy && v - 1 in legacy && legacy[v] in tags ==> legacy[v - 1] in tags
  }

  /** With a legacy version, `tags` has all lower ones. */
  ghost predicate DownClosed(legacy: map<int, Tag>, end: int, tags: set<Tag>) {
    forall v :: 3 <= v < end ==> HasBelow(legacy, tags, v)
  }

  ghost predicate AllChained(legacy: map<int, Tag>, reg: Registry, end: int) {
    forall v :: 3 <= v < end ==> ChainedIn(legacy, reg, v)
  }

  lemma {:induction false} AbsentAbove(reg: Registry, legacy: map<int, Tag>, end: int, tags: set<Tag>, i: int, j: int)
    requires AllChained(legacy, reg, end) && DownClosed(legacy, end, tags)
    requires 2 <= i <= j < end && i in legacy && j in legacy && legacy[i] !in tags
    ensures legacy[j] !in tags
    decreases j
  {
    if i < j {
      assert ChainedIn(legacy, reg, j) && HasBelow(legacy, tags, j);
      AbsentAbove(reg, legacy, end, tags, i, j - 1);
    }
  }

  /** A dependency of `log[k]` that is not present at the start has been applied before. */
  lemma AppliedBefore(reg: Registry, tags: set<Tag>, log: seq<Tag>, k: int, t: Tag) returns (q: int)
    requires ValidOrder(reg, tags, log) && 0 <= k < |log| && log[k] in reg.deps && t in reg.deps[log[k]] && t !in tags
    ensures 0 <= q < k && log[q] == t
  {
    assert OrderedAt(reg, tags, log, k);
    assert t in Elems(log[..k]);
    q :| 0 <= q < k && log[q] == t;
  }

  /** Legacy versions are applied in increasing order: before version `j`, every lower one not yet present. */
  lemma {:induction false} LegacyInOrder(reg: Registry, legacy: map<int, Tag>, end: int, tags: set<Tag>,
                                         log: seq<Tag>, i: int, j: int, k: int) returns (q: int)
    requires AllChained(legacy, reg, end) && DownClosed(legacy, end, tags) && ValidOrder(reg, tags, log)
    requires 2 <= i < j < end && 0 <= k < |log| && j in legacy && log[k] == legacy[j]
    requires i in legacy && legacy[i] !in tags
    ensures 0 <= q < k && log[q] == legacy[i]
    decreases j
  {
    assert ChainedIn(legacy, reg, j);
    AbsentAbove(reg, legacy, end, tags, i, j - 1);
    q := AppliedBefore(reg, tags, log, k, legacy[j - 1]);
    if j - 1 > i {
      q := LegacyInOrder(reg, legacy, end, tags, log, i, j - 1, q);
    }
  }

  /** The tags of a legacy checkpoint are downward closed. */
  lemma LegacyTagsDownClosed(reg: Registry, legacy: map<int, Tag>, end: int, ver: int, tags: set<Tag>)
    requires AllChained(legacy, reg, end) && tags == set i | i in legacy && 2 <= i <= ver :: legacy[i]
    requires forall n, k :: n in legacy && k in legacy && n != k ==> legacy[n] != legacy[k]
    ensures DownClosed(legacy, end, tags)
  {
    forall v | 3 <= v < end
      ensures HasBelow(legacy, tags, v)
    {
      if v in legacy && v - 1 in legacy && legacy[v] in tags {
        var i :| i in legacy && 2 <= i <= ver && legacy[i] == legacy[v];
        assert i == v;
      }
    }
  }
}
