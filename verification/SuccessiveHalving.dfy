/**
 Sequential elimination of tuning finalists, and the fixed schedule it is
 compared with: tools/bigcherry/analysis/bandit_simulator.py.
 The survivors dictionary is a list of names with one table of counters; an
 eliminated name keeps the counter it had.
 */
module SuccessiveHalving {
  import opened Sorting
  import opened RoundData
  import opened Spans

  // ---------------------------------------------------------------- one pass

  /** `max(0, min(chunk, left))`: the further rounds a pass takes. */
  function Take(chunk: int, left: nat): nat {
    if chunk <= 0 then 0 else if chunk < left then chunk else left
  }

  /** Rounds taken after `passes` passes over `len` recorded ones. */
  function Reach(chunk: int, passes: nat, len: nat): (r: nat)
    ensures r <= len
  {
    if passes == 0 then 0
    else
      var before := Reach(chunk, passes - 1, len);
      before + Take(chunk, len - before)
  }

  /** A survivor of `passes` passes has read `min(passes * chunk, len)` rounds. */
  lemma {:induction false} ReachClosed(chunk: nat, passes: nat, len: nat)
    ensures Reach(chunk, passes, len) == if passes * chunk < len then passes * chunk else len
  {
    if passes != 0 {
      ReachClosed(chunk, passes - 1, len);
      assert passes * chunk == (passes - 1) * chunk + chunk;
    }
  }

  /** Each of `names`, and no other, has read up to `chunk` more of its rounds. */
  ghost predicate Advanced(recorded: Recorded, names: seq<string>, before: Counts, taken: Counts, chunk: int)
    requires Within(recorded, before) && Within(recorded, taken)
  {
    forall n :: n in recorded ==>
      taken[n] == before[n] + if n in names then Take(chunk, |recorded[n]| - before[n]) else 0
  }

  /** The inner loop of a pass: each of `names` reads up to `chunk` more rounds. */
  method TakeChunk(recorded: Recorded, all: seq<string>, names: seq<string>, before: Counts, chunk: int)
    returns (taken: Counts, gained: nat)
    requires Within(recorded, before) && Distinct(all) && Distinct(names)
    requires forall n :: n in names ==> n in all && n in recorded
    ensures Within(recorded, taken)
    ensures Advanced(recorded, names, before, taken, chunk)
    ensures Total(taken, all) == Total(before, all) + gained
    ensures gained == 0 ==> taken == before
  {
    taken, gained := before, 0;
    for i := 0 to |names|
      invariant Within(recorded, taken)
      invariant forall n :: n in recorded ==>
        taken[n] == before[n] + if n in names[..i] then Take(chunk, |recorded[n]| - before[n]) else 0
      invariant Total(taken, all) == Total(before, all) + gained
      invariant gained == 0 ==> taken == before
    {
      var name := names[i];
      assert names[..i + 1] == names[..i] + [name];
      assert name in names && name !in names[..i];
      var take := Take(chunk, |recorded[name]| - taken[name]);
      if take > 0 {
        TotalUpdate(taken, all, name, taken[name] + take);
        taken := taken[name := taken[name] + take];
        gained := gained + take;
      }
    }
    assert names[..|names|] == names;
  }

  // ---------------------------------------------------------------- one elimination

  function Half(n: nat): nat { if n <= 1 then 1 else (n + 1) / 2 }

  function InSet(s: set<string>): string -> bool { (n: string) => n in s }

  /** The better half of the ranking, and every native that is ranked. */
  function Keep(ranked: seq<string>, natives: set<string>): seq<string>
    requires ranked != []
  {
    ranked[..Half(|ranked|)] + Filter(ranked[Half(|ranked|)..], InSet(natives))
  }

  lemma {:induction false} KeepDistinct(ranked: seq<string>, natives: set<string>)
    requires ranked != [] && Distinct(ranked)
    ensures Distinct(Keep(ranked, natives))
  {
    var h := Half(|ranked|);
    var best, rest := ranked[..h], Filter(ranked[h..], InSet(natives));
    FilterExact(ranked[h..], InSet(natives));
    forall i, j | 0 <= i < |best| && 0 <= j < |rest| ensures best[i] != rest[j] {
      assert rest[j] in ranked[h..];
      var k :| 0 <= k < |ranked| - h && ranked[h..][k] == rest[j];
      assert ranked[i] != ranked[h + k];
    }
  }

  lemma {:induction false} KeepMembers(ranked: seq<string>, natives: set<string>)
    requires ranked != [] && Distinct(ranked)
    ensures Distinct(Keep(ranked, natives)) && Keep(ranked, natives) != []
    ensures forall n :: n in Keep(ranked, natives) ==> n in ranked
    ensures forall n :: n in ranked && n in natives ==> n in Keep(ranked, natives)
    ensures forall i :: 0 <= i < Half(|ranked|) ==> ranked[i] in Keep(ranked, natives)
  {
    var h := Half(|ranked|);
    var best := ranked[..h];
    FilterExact(ranked[h..], InSet(natives));
    assert ranked == best + ranked[h..];
    forall i | 0 <= i < h ensures ranked[i] in Keep(ranked, natives) { assert best[i] in best; }
    KeepDistinct(ranked, natives);
  }

  /** Exactly the better half of a ranking, rounded up, and the natives behind it are kept. */
  ghost predicate Halved(ranked: seq<string>, natives: set<string>, kept: seq<string>) {
    && (forall n :: n in kept ==> n in ranked)
    && (forall i :: 0 <= i < |ranked| ==> (ranked[i] in kept <==> 2 * i < |ranked| || ranked[i] in natives))
  }

  lemma {:induction false} KeepHalves(ranked: seq<string>, natives: set<string>)
    requires ranked != [] && Distinct(ranked)
    ensures Halved(ranked, natives, Keep(ranked, natives))
  {
    var h := Half(|ranked|);
    KeepMembers(ranked, natives);
    forall i | 0 <= i < |ranked|
      ensures ranked[i] in Keep(ranked, natives) <==> 2 * i < |ranked| || ranked[i] in natives
    {
      if i >= h && ranked[i] !in natives { BehindIsDropped(ranked, natives, i); }
    }
  }

  lemma {:induction false} BehindIsDropped(ranked: seq<string>, natives: set<string>, i: nat)
    requires Distinct(ranked) && Half(|ranked|) <= i < |ranked| && ranked[i] !in natives
    ensures ranked[i] !in Keep(ranked, natives)
  {
    var h := Half(|ranked|);
    FilterExact(ranked[h..], InSet(natives));
    forall j | 0 <= j < h ensures ranked[..h][j] != ranked[i] { }
  }

  lemma {:induction false} FilteredWithin(s: seq<string>, members: set<string>)
    requires Distinct(s)
    ensures |Filter(s, InSet(members))| <= |members|
  {
    var rest := Filter(s, InSet(members));
    FilterExact(s, InSet(members));
    var kept := set n | n in rest;
    DistinctSize(rest, kept);
    SubsetSize(kept, members);
  }

  lemma {:induction false} KeepShrinks(ranked: seq<string>, natives: set<string>)
    requires ranked != [] && Distinct(ranked)
    ensures |Keep(ranked, natives)| <= Half(|ranked|) + |natives|
  {
    FilteredWithin(ranked[Half(|ranked|)..], natives);
  }

  /** What is dropped is no native, and no faster than any of the better half, which is kept. */
  lemma {:induction false} DroppedIsBeaten(recorded: Recorded, taken: Counts, ranked: seq<string>, natives: set<string>, n: string, i: nat)
    requires ranked != [] && Distinct(ranked) && SortedBy(ranked, ByMean(recorded, taken))
    requires n in ranked && n !in Keep(ranked, natives) && i < Half(|ranked|)
    ensures n !in natives && n != ranked[i]
    ensures NoSlower(Prefix(recorded, taken, ranked[i]), Prefix(recorded, taken, n))
  {
    KeepMembers(ranked, natives);
    var j :| 0 <= j < |ranked| && ranked[j] == n;
    assert j >= Half(|ranked|);
    assert ByMean(recorded, taken)(ranked[i], ranked[j]);
  }

  // ---------------------------------------------------------------- the whole policy

  ghost function Reached(recorded: Recorded, chunk: int, passes: nat, n: string): seq<real> {
    if n in recorded then recorded[n][..Reach(chunk, passes, |recorded[n]|)] else []
  }

  /** After pass `e`, the last that `n` took part in, `m` was another name at least as fast. */
  ghost predicate BeatenBy(recorded: Recorded, chunk: int, taken: Counts, n: string, m: string, e: nat) {
    && n in recorded && m in recorded && m != n
    && At(taken, n) == Reach(chunk, e, |recorded[n]|)
    && NoSlower(Reached(recorded, chunk, e, m), Reached(recorded, chunk, e, n))
  }

  /** Why `n` was dropped within `passes` passes: nothing to measure, or beaten and no native. */
  ghost predicate Dropped(recorded: Recorded, natives: set<string>, chunk: int, taken: Counts, passes: nat, n: string) {
    n in recorded && (recorded[n] == [] ||
      (n !in natives && exists m: string, e: nat :: e <= passes && BeatenBy(recorded, chunk, taken, n, m, e)))
  }

  ghost predicate Alive(recorded: Recorded, chunk: int, taken: Counts, passes: nat, n: string) {
    n in recorded && At(taken, n) == Reach(chunk, passes, |recorded[n]|)
  }

  /** The names that can be measured at all. */
  ghost function Measurable(recorded: Recorded): set<string> {
    set n | n in recorded && recorded[n] != []
  }

  /** What every pass keeps: `names` survive, every other name was dropped for a reason. */
  ghost predicate Running(recorded: Recorded, natives: set<string>, chunk: int,
                          names: seq<string>, taken: Counts, passes: nat) {
    && Within(recorded, taken)
    && Distinct(names)
    && (forall n :: n in names ==> Alive(recorded, chunk, taken, passes, n))
    && (forall n {:trigger Dropped(recorded, natives, chunk, taken, passes, n)} ::
          n in recorded && n !in names ==> Dropped(recorded, natives, chunk, taken, passes, n))
  }

  /** An elimination needs two measurable names and leaves only measurable ones. */
  ghost predicate CutState(recorded: Recorded, chunk: int, all: seq<string>, names: seq<string>, cut: bool) {
    if cut then chunk > 0 && |Measurable(recorded)| >= 2 && forall n :: n in names ==> n in Measurable(recorded)
    else names == all
  }

  lemma {:induction false} DroppedStays(recorded: Recorded, natives: set<string>, chunk: int, before: Counts, taken: Counts, passes: nat, n: string)
    requires Dropped(recorded, natives, chunk, before, passes, n) && At(taken, n) == At(before, n)
    ensures Dropped(recorded, natives, chunk, taken, passes + 1, n)
  {
    if recorded[n] != [] {
      var m: string, e: nat :| e <= passes && BeatenBy(recorded, chunk, before, n, m, e);
      assert BeatenBy(recorded, chunk, taken, n, m, e);
    }
  }

  lemma {:induction false} PassKeeps(recorded: Recorded, natives: set<string>, chunk: int,
                  names: seq<string>, before: Counts, taken: Counts, passes: nat)
    requires Running(recorded, natives, chunk, names, before, passes) && Within(recorded, taken)
    requires Advanced(recorded, names, before, taken, chunk)
    ensures Running(recorded, natives, chunk, names, taken, passes + 1)
  {
    forall n | n in names ensures Alive(recorded, chunk, taken, passes + 1, n) {
      assert Alive(recorded, chunk, before, passes, n);
    }
    forall n | n in recorded && n !in names ensures Dropped(recorded, natives, chunk, taken, passes + 1, n) {
      DroppedStays(recorded, natives, chunk, before, taken, passes, n);
    }
  }

  /** Names at the same pass compare by what they had then. */
  lemma {:induction false} EliminationKeeps(recorded: Recorded, natives: set<string>, chunk: int,
                         names: seq<string>, taken: Counts, passes: nat)
    requires Running(recorded, natives, chunk, names, taken, passes) && passes > 0 && chunk > 0
    requires Ranking(recorded, taken, names) != []
    ensures Running(recorded, natives, chunk, Keep(Ranking(recorded, taken, names), natives), taken, passes)
  {
    var ranked := Ranking(recorded, taken, names);
    RankingExact(recorded, taken, names);
    KeepMembers(ranked, natives);
    var kept := Keep(ranked, natives);
    forall n | n in kept ensures Alive(recorded, chunk, taken, passes, n) {
      assert n in ranked;
    }
    forall n | n in recorded && n !in kept ensures Dropped(recorded, natives, chunk, taken, passes, n) {
      if n in names {
        assert Alive(recorded, chunk, taken, passes, n);
        SampledIff(recorded, chunk, taken, passes, n);
        if n in ranked {
          DroppedIsBeaten(recorded, taken, ranked, natives, n, 0);
          assert ranked[0] in names;
          assert Alive(recorded, chunk, taken, passes, ranked[0]);
          assert BeatenBy(recorded, chunk, taken, n, ranked[0], passes);
        }
      }
    }
  }

  lemma {:induction false} SampledIff(recorded: Recorded, chunk: int, taken: Counts, passes: nat, n: string)
    requires Alive(recorded, chunk, taken, passes, n) && passes > 0 && chunk > 0
    ensures At(taken, n) > 0 <==> recorded[n] != []
  {
    ReachClosed(chunk, passes, |recorded[n]|);
    assert passes * chunk >= chunk;
  }

  /** An elimination happens among at least two measurable names, and keeps only such. */
  lemma {:induction false} EliminationCuts(recorded: Recorded, natives: set<string>, chunk: int, all: seq<string>,
                        names: seq<string>, taken: Counts, passes: nat)
    requires Running(recorded, natives, chunk, names, taken, passes) && passes > 0 && chunk > 0
    requires |Ranking(recorded, taken, names)| >= 2
    ensures CutState(recorded, chunk, all, Keep(Ranking(recorded, taken, names), natives), true)
  {
    var ranked := Ranking(recorded, taken, names);
    RankingExact(recorded, taken, names);
    KeepMembers(ranked, natives);
    forall n | n in ranked ensures n in Measurable(recorded) {
      assert Alive(recorded, chunk, taken, passes, n);
      SampledIff(recorded, chunk, taken, passes, n);
    }
    var members := set n | n in ranked;
    DistinctSize(ranked, members);
    assert Measurable(recorded) == members + (Measurable(recorded) - members);
  }

  lemma {:induction false} EliminationHalves(recorded: Recorded, natives: set<string>, names: seq<string>, taken: Counts)
    requires Distinct(names) && Ranking(recorded, taken, names) != []
    ensures Halved(Ranking(recorded, taken, names), natives, Keep(Ranking(recorded, taken, names), natives))
  {
    RankingExact(recorded, taken, names);
    KeepHalves(Ranking(recorded, taken, names), natives);
  }

  /** Only natives can take the survivors over one half. */
  lemma {:induction false} EliminationShrinks(recorded: Recorded, natives: set<string>, names: seq<string>, taken: Counts)
    requires Distinct(names) && Ranking(recorded, taken, names) != []
    ensures |Keep(Ranking(recorded, taken, names), natives)| <= Half(|names|) + |natives|
  {
    var ranked := Ranking(recorded, taken, names);
    RankingExact(recorded, taken, names);
    KeepShrinks(ranked, natives);
    RankingFits(recorded, taken, names);
  }

  /** With every name still there after one pass, the ranked names are the measurable ones. */
  lemma {:induction false} FirstPassRanks(recorded: Recorded, natives: set<string>, chunk: int, names: seq<string>, taken: Counts)
    requires Running(recorded, natives, chunk, names, taken, 1) && chunk > 0
    requires forall n :: n in recorded ==> n in names
    ensures |Ranking(recorded, taken, names)| == |Measurable(recorded)|
  {
    var ranked := Ranking(recorded, taken, names);
    RankingExact(recorded, taken, names);
    forall n | n in names ensures n in ranked <==> n in Measurable(recorded) {
      assert Alive(recorded, chunk, taken, 1, n);
      SampledIff(recorded, chunk, taken, 1, n);
    }
    DistinctSize(ranked, Measurable(recorded));
  }

  /** A pass that reads nothing leaves nothing to read. */
  lemma {:induction false} NothingLeft(recorded: Recorded, chunk: int, names: seq<string>, taken: Counts)
    requires Within(recorded, taken) && forall n :: n in names ==> n in recorded
    requires Advanced(recorded, names, taken, taken, chunk)
    ensures chunk <= 0 || forall n :: n in names ==> taken[n] == |recorded[n]|
  {
    forall n | n in names ensures chunk <= 0 || taken[n] == |recorded[n]| {
      assert n in recorded;
    }
  }

  /** Why the passes stop. */
  ghost predicate Stopped(recorded: Recorded, chunk: int, names: seq<string>, taken: Counts) {
    || |names| <= 1
    || chunk <= 0
    || (forall n :: n in names ==> n in recorded && At(taken, n) == |recorded[n]|)
    || |Ranking(recorded, taken, names)| <= 1
  }

  /** Nothing was eliminated because there was nothing to compare. */
  ghost predicate Uncut(recorded: Recorded, chunk: int) {
    chunk <= 0 || |Measurable(recorded)| <= 1
  }

  lemma {:induction false} UncutAtStop(recorded: Recorded, natives: set<string>, chunk: int, names: seq<string>, taken: Counts, passes: nat)
    requires Running(recorded, natives, chunk, names, taken, passes)
    requires forall n :: n in recorded <==> n in names
    requires |names| <= 1 || (passes == 0 && (chunk <= 0 || forall n :: n in names ==> taken[n] == |recorded[n]|))
    ensures Uncut(recorded, chunk)
  {
    if |names| <= 1 {
      DistinctSize(names, recorded.Keys);
      assert recorded.Keys == Measurable(recorded) + (recorded.Keys - Measurable(recorded));
    } else if chunk > 0 {
      forall n | n in names ensures recorded[n] == [] {
        assert Alive(recorded, chunk, taken, 0, n);
      }
      assert Measurable(recorded) == {};
    }
  }

  lemma {:induction false} StopsWhenIdle(recorded: Recorded, natives: set<string>, chunk: int, all: seq<string>,
                      names: seq<string>, taken: Counts, passes: nat, cut: bool)
    requires Running(recorded, natives, chunk, names, taken, passes)
    requires CutState(recorded, chunk, all, names, cut) && (!cut ==> passes == 0)
    requires forall n :: n in all <==> n in recorded
    requires Advanced(recorded, names, taken, taken, chunk)
    ensures Stopped(recorded, chunk, names, taken)
    ensures !cut ==> Uncut(recorded, chunk)
  {
    NamesAreRecorded(recorded, natives, chunk, names, taken, passes);
    NothingLeft(recorded, chunk, names, taken);
    if !cut { UncutAtStop(recorded, natives, chunk, names, taken, passes); }
  }

  lemma {:induction false} AfterMeasuring(recorded: Recorded, natives: set<string>, chunk: int, all: seq<string>,
                       names: seq<string>, before: Counts, taken: Counts, passes: nat)
    requires Running(recorded, natives, chunk, names, before, passes) && Within(recorded, taken)
    requires Advanced(recorded, names, before, taken, chunk) && Total(taken, all) > Total(before, all)
    ensures Running(recorded, natives, chunk, names, taken, passes + 1) && chunk > 0
  {
    PassKeeps(recorded, natives, chunk, names, before, taken, passes);
    if chunk <= 0 { NoChunkNoGain(recorded, all, names, before, taken, chunk); }
  }

  lemma {:induction false} NamesAreRecorded(recorded: Recorded, natives: set<string>, chunk: int, names: seq<string>, taken: Counts, passes: nat)
    requires Running(recorded, natives, chunk, names, taken, passes)
    ensures forall n :: n in names ==> n in recorded
  {
    assert forall n :: n in names ==> Alive(recorded, chunk, taken, passes, n);
  }

  /** Drop the worse half of what was sampled, or stop with at most one name sampled. */
  method Eliminate(recorded: Recorded, natives: set<string>, all: seq<string>, chunk: int,
                   names: seq<string>, taken: Counts, ghost passes: nat, ghost cut: bool)
    returns (kept: seq<string>, done: bool, ghost halved: bool)
    requires Running(recorded, natives, chunk, names, taken, passes) && names != [] && chunk > 0
    requires CutState(recorded, chunk, all, names, cut) && passes >= 1 && (!cut ==> passes == 1)
    requires forall n :: n in all <==> n in recorded
    ensures Running(recorded, natives, chunk, kept, taken, passes) && kept != []
    ensures !done ==> |kept| <= Half(|names|) + |natives|
    ensures if done then kept == names else Halved(Ranking(recorded, taken, names), natives, kept)
    ensures CutState(recorded, chunk, all, kept, halved)
    ensures !halved ==> done && Uncut(recorded, chunk)
    ensures done ==> Stopped(recorded, chunk, kept, taken)
  {
    var ranked := Ranking(recorded, taken, names);
    if |ranked| <= 1 {
      if !cut { FirstPassRanks(recorded, natives, chunk, names, taken); }
      return names, true, cut;
    }
    EliminationKeeps(recorded, natives, chunk, names, taken, passes);
    EliminationCuts(recorded, natives, chunk, all, names, taken, passes);
    EliminationShrinks(recorded, natives, names, taken);
    EliminationHalves(recorded, natives, names, taken);
    return Keep(ranked, natives), false, true;
  }

  lemma {:induction false} NoChunkNoGain(recorded: Recorded, all: seq<string>, names: seq<string>, before: Counts, taken: Counts, chunk: int)
    requires Within(recorded, before) && Within(recorded, taken) && chunk <= 0
    requires Advanced(recorded, names, before, taken, chunk)
    ensures Total(taken, all) == Total(before, all)
  {
    TotalAgrees(taken, before, all);
  }

  /** The survivors and the counters between two passes. */
  datatype Standing = Standing(names: seq<string>, taken: Counts)

  /** One full pass: every survivor reads its chunk, and the ranking is halved. */
  ghost predicate PassesTo(recorded: Recorded, natives: set<string>, chunk: int, a: Standing, b: Standing) {
    && Within(recorded, a.taken) && Within(recorded, b.taken)
    && Advanced(recorded, a.names, a.taken, b.taken, chunk)
    && Halved(Ranking(recorded, b.taken, a.names), natives, b.names)
  }

  /** The full passes of a run, from all the names and no round read. */
  ghost predicate Course(recorded: Recorded, natives: set<string>, chunk: int, all: seq<string>, history: seq<Standing>) {
    && history != [] && history[0].names == all
    && (forall n :: n in recorded ==> At(history[0].taken, n) == 0)
    && forall k :: 0 <= k < |history| - 1 ==> PassesTo(recorded, natives, chunk, history[k], history[k + 1])
  }

  lemma {:induction false} CourseGoesOn(recorded: Recorded, natives: set<string>, chunk: int, all: seq<string>,
                                        history: seq<Standing>, next: Standing)
    requires Course(recorded, natives, chunk, all, history)
    requires PassesTo(recorded, natives, chunk, history[|history| - 1], next)
    ensures Course(recorded, natives, chunk, all, history + [next])
  {
    var longer := history + [next];
    forall k | 0 <= k < |longer| - 1 ensures PassesTo(recorded, natives, chunk, longer[k], longer[k + 1]) {
      if k < |history| - 1 { assert PassesTo(recorded, natives, chunk, history[k], history[k + 1]); }
    }
  }

  /** The survivors are those after the full passes; the last pass may have read without eliminating. */
  ghost predicate Played(recorded: Recorded, natives: set<string>, chunk: int, all: seq<string>,
                         survivors: seq<string>, taken: Counts) {
    exists history :: Course(recorded, natives, chunk, all, history)
      && LeavesOff(recorded, chunk, history[|history| - 1], survivors, taken)
  }

  ghost predicate LeavesOff(recorded: Recorded, chunk: int, last: Standing, survivors: seq<string>, taken: Counts) {
    && survivors == last.names
    && (taken == last.taken ||
        (Within(recorded, last.taken) && Within(recorded, taken) && Advanced(recorded, survivors, last.taken, taken, chunk)))
  }

  /** One round of measuring and, unless the policy is done, eliminating. */
  method OnePass(recorded: Recorded, natives: set<string>, all: seq<string>, chunk: int,
                 names: seq<string>, before: Counts, ghost passes: nat, ghost cut: bool)
    returns (kept: seq<string>, taken: Counts, gained: nat, done: bool, ghost now: nat, ghost halved: bool)
    requires Running(recorded, natives, chunk, names, before, passes) && |names| > 1
    requires CutState(recorded, chunk, all, names, cut) && (!cut ==> passes == 0)
    requires Distinct(all) && forall n :: n in all <==> n in recorded
    ensures Running(recorded, natives, chunk, kept, taken, now) && kept != []
    ensures Total(taken, all) == Total(before, all) + gained
    ensures CutState(recorded, chunk, all, kept, halved) && (!halved ==> done && Uncut(recorded, chunk))
    ensures if done then Stopped(recorded, chunk, kept, taken) else gained > 0
    ensures if done then LeavesOff(recorded, chunk, Standing(names, before), kept, taken)
      else PassesTo(recorded, natives, chunk, Standing(names, before), Standing(kept, taken))
  {
    NamesAreRecorded(recorded, natives, chunk, names, before, passes);
    taken, gained := TakeChunk(recorded, all, names, before, chunk);
    if gained == 0 {
      StopsWhenIdle(recorded, natives, chunk, all, names, taken, passes, cut);
      return names, taken, 0, true, passes, cut;
    }
    AfterMeasuring(recorded, natives, chunk, all, names, before, taken, passes);
    now := passes + 1;
    kept, done, halved := Eliminate(recorded, natives, all, chunk, names, taken, now, cut);
  }

  /** The outer loop. It ends because every pass but the last reads a round. */
  method Passes(recorded: Recorded, natives: set<string>, all: seq<string>, chunk: int)
    returns (names: seq<string>, taken: Counts, total: nat, ghost passes: nat, ghost cut: bool)
    requires Distinct(all) && forall n :: n in all <==> n in recorded
    ensures Running(recorded, natives, chunk, names, taken, passes)
    ensures total == Total(taken, all)
    ensures Stopped(recorded, chunk, names, taken)
    ensures CutState(recorded, chunk, all, names, cut) && (!cut ==> Uncut(recorded, chunk))
    ensures names == [] ==> all == []
    ensures Played(recorded, natives, chunk, all, names, taken)
  {
    names, taken, total, passes, cut := all, map n | n in recorded :: 0, 0, 0, false;
    ZeroTotal(taken, all);
    ghost var history := [Standing(names, taken)];
    while |names| > 1
      invariant Course(recorded, natives, chunk, all, history)
      invariant history[|history| - 1] == Standing(names, taken)
      invariant Running(recorded, natives, chunk, names, taken, passes)
      invariant total == Total(taken, all)
      invariant CutState(recorded, chunk, all, names, cut) && (!cut ==> passes == 0)
      invariant names == [] ==> all == []
      decreases Total(Lengths(recorded), all) - total
    {
      var gained, done;
      names, taken, gained, done, passes, cut := OnePass(recorded, natives, all, chunk, names, taken, passes, cut);
      total := total + gained;
      TotalWithin(recorded, taken, all);
      if done {
        return;
      }
      CourseGoesOn(recorded, natives, chunk, all, history, Standing(names, taken));
      history := history + [Standing(names, taken)];
    }
    assert LeavesOff(recorded, chunk, history[|history| - 1], names, taken);
    if !cut { UncutAtStop(recorded, natives, chunk, names, taken, passes); }
  }

  /** A native is lost exactly when it has no rounds while at least two other names are measured. */
  ghost predicate NativesKept(recorded: Recorded, natives: set<string>, chunk: int, survivors: seq<string>) {
    forall n :: n in natives && n in recorded ==>
      (n !in survivors <==> recorded[n] == [] && chunk > 0 && |Measurable(recorded)| >= 2)
  }

  lemma {:induction false} NativesKeptAtEnd(recorded: Recorded, natives: set<string>, chunk: int, all: seq<string>,
                         names: seq<string>, taken: Counts, passes: nat, cut: bool)
    requires forall n :: n in all <==> n in recorded
    requires Running(recorded, natives, chunk, names, taken, passes)
    requires CutState(recorded, chunk, all, names, cut) && (!cut ==> Uncut(recorded, chunk))
    ensures NativesKept(recorded, natives, chunk, names)
  {
    forall n | n in natives && n in recorded
      ensures n !in names <==> recorded[n] == [] && chunk > 0 && |Measurable(recorded)| >= 2
    {
      if n !in names { assert Dropped(recorded, natives, chunk, taken, passes, n); }
    }
  }

  /** `r` is the result of a run that `survivors` survived for `passes` passes, reading `taken`. */
  ghost predicate Yields(cs: seq<Candidate>, minRounds: int, chunk: int, r: Outcome,
                         survivors: seq<string>, taken: Counts, passes: nat) {
    var recorded := ByName(cs);
    && Running(recorded, Natives(cs), chunk, survivors, taken, passes)
    && Played(recorded, Natives(cs), chunk, Names(cs), survivors, taken)
    && Stopped(recorded, chunk, survivors, taken)
    && NativesKept(recorded, Natives(cs), chunk, survivors)
    && r.roundsConsumed == Total(taken, Names(cs)) <= Budget(cs)
    && r.consumed == (map n | n in survivors && n in recorded && At(taken, n) > 0 :: Prefix(recorded, taken, n))
    && (r.conclusive <==> cs != [] && forall n :: n in survivors ==> At(taken, n) >= minRounds)
    && (if cs == [] then r.winner == "" else FastestOf(recorded, taken, survivors, r.winner))
  }

  /** `successive_halving`. */
  method Halve(cs: seq<Candidate>, minRounds: int, chunk: int) returns (r: Outcome)
    ensures exists survivors, taken, passes: nat :: Yields(cs, minRounds, chunk, r, survivors, taken, passes)
  {
    var recorded, natives, all := ByName(cs), Natives(cs), Names(cs);
    NamesExact(cs);
    var names, taken, total;
    ghost var passes, cut;
    names, taken, total, passes, cut := Passes(recorded, natives, all, chunk);
    NativesKeptAtEnd(recorded, natives, chunk, all, names, taken, passes, cut);
    NamesAreRecorded(recorded, natives, chunk, names, taken, passes);
    TotalWithin(recorded, taken, all);
    BudgetCovers(cs);
    var consumed := map n | n in names && n in recorded && At(taken, n) > 0 :: Prefix(recorded, taken, n);
    if names == [] {
      r := Outcome("", total, false, consumed);
    } else {
      ByMeanIsPreorder(recorded, taken);
      FirstIsLeast(names, ByMean(recorded, taken));
      var conclusive := forall n :: n in names ==> At(taken, n) >= minRounds;
      r := Outcome(First(names, ByMean(recorded, taken)), total, conclusive, consumed);
    }
    assert Yields(cs, minRounds, chunk, r, names, taken, passes);
  }

  // ---------------------------------------------------------------- the fixed schedule

  function Enough(minRounds: int): Candidate -> bool { (c: Candidate) => |c.rounds| >= minRounds }

  /** Some candidate of this name has enough rounds. */
  ghost predicate Eligible(cs: seq<Candidate>, minRounds: int, n: string) {
    exists c :: c in cs && c.name == n && |c.rounds| >= minRounds
  }

  lemma {:induction false} EligibleExact(cs: seq<Candidate>, minRounds: int, n: string)
    ensures var recorded := ByName(Filter(cs, Enough(minRounds)));
      (n in recorded <==> Eligible(cs, minRounds, n)) && (n in recorded ==> |recorded[n]| >= minRounds)
  {
    FilterExact(cs, Enough(minRounds));
    ByNameExact(Filter(cs, Enough(minRounds)));
  }

  /** The control: every recorded round is read, and the policies above never read more. */
  method FixedSchedule(cs: seq<Candidate>, minRounds: int) returns (r: Outcome)
    ensures r.roundsConsumed == Budget(cs)
    ensures r.conclusive <==> exists n :: Eligible(cs, minRounds, n)
    ensures forall n :: n in r.consumed <==> Eligible(cs, minRounds, n)
    ensures forall n :: n in r.consumed ==> |r.consumed[n]| >= minRounds
    ensures r.conclusive ==> FastestOf(r.consumed, Lengths(r.consumed), Names(Filter(cs, Enough(minRounds))), r.winner)
  {
    var eligible := Filter(cs, Enough(minRounds));
    var names, recorded := Names(eligible), ByName(eligible);
    NamesExact(eligible);
    forall n ensures n in recorded <==> Eligible(cs, minRounds, n) { EligibleExact(cs, minRounds, n); }
    forall n | n in recorded ensures |recorded[n]| >= minRounds { EligibleExact(cs, minRounds, n); }
    if names == [] {
      return Outcome("", Budget(cs), false, recorded);
    }
    assert names[0] in recorded;
    ByMeanIsPreorder(recorded, Lengths(recorded));
    FirstIsLeast(names, ByMean(recorded, Lengths(recorded)));
    return Outcome(First(names, ByMean(recorded, Lengths(recorded))), Budget(cs), true, recorded);
  }

  // ---------------------------------------------------------------- a native that is lost

  /** Native has no recorded round; two challengers have one each. */
  ghost function SilentNative(): seq<Candidate> {
    [Candidate("n", true, []), Candidate("a", false, [1.0]), Candidate("b", false, [1.0])]
  }

  lemma {:induction false} SilentNativeRecorded()
    ensures ByName(SilentNative()) == map["n" := [], "a" := [1.0], "b" := [1.0]]
    ensures "n" in Natives(SilentNative())
  {
    var cs := SilentNative();
    assert cs[0] in cs;
    var one, two := [cs[0]], [cs[0], cs[1]];
    assert one[..0] == [] && two[..1] == one && cs[..2] == two;
    assert ByName(one) == map["n" := []];
    assert ByName(two) == map["n" := [], "a" := [1.0]];
  }

  /** Every run over these candidates drops the native. */
  lemma {:induction false} SilentNativeIsLost(minRounds: int, chunk: int, r: Outcome, survivors: seq<string>, taken: Counts, passes: nat)
    requires chunk > 0 && Yields(SilentNative(), minRounds, chunk, r, survivors, taken, passes)
    ensures "n" in Natives(SilentNative()) && "n" !in survivors && "n" !in r.consumed
  {
    SilentLost(chunk, survivors);
  }

  lemma {:induction false} SilentLost(chunk: int, survivors: seq<string>)
    requires chunk > 0 && NativesKept(ByName(SilentNative()), Natives(SilentNative()), chunk, survivors)
    ensures "n" in Natives(SilentNative()) && "n" !in survivors
  {
    SilentNativeRecorded();
    var recorded := ByName(SilentNative());
    assert Measurable(recorded) == {"a", "b"};
    assert "n" in recorded;
  }

  /** With a round recorded for every candidate, as the loader leaves them, every native survives. */
  lemma {:induction false} MeasuredNativesSurvive(cs: seq<Candidate>, minRounds: int, chunk: int, r: Outcome,
                               survivors: seq<string>, taken: Counts, passes: nat)
    requires forall c :: c in cs ==> c.rounds != []
    requires Yields(cs, minRounds, chunk, r, survivors, taken, passes)
    ensures forall n :: n in Natives(cs) ==> n in survivors
  {
    NamesExact(cs);
    NativesAreNamed(cs);
    ByNameExact(cs);
    forall n | n in Natives(cs) ensures n in survivors {
      assert n in ByName(cs);
      var c :| c in cs && c.name == n && c.rounds == ByName(cs)[n];
    }
  }
}
