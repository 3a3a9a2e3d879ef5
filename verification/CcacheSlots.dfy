/**
 The slot protocol of tools/bigcherry/campaign/ccache_paths.py as interleaved steps of any
 number of builds, each in its own process, on one work root. A step may be any statement of
 `stable_paths`, a statement that raises, a write by the body, or a kill; the operating system
 releases the lock of a killed build.
 */
module CcacheSlots {
  import opened Wrappers

  datatype Name =
    | RealSrc | RealBld | LinkSrc | LinkBld                       // VARIABLES
    | BaseDir | NoHashDir | CompilerCheck | CacheDir              // CCACHE_VARIABLES
    | Other(name: string)

  type Environment = map<Name, string>

  /** Position in `VARIABLES + CCACHE_VARIABLES`; 8 for every other variable. */
  function Index(name: Name): nat {
    match name
    case RealSrc => 0
    case RealBld => 1
    case LinkSrc => 2
    case LinkBld => 3
    case BaseDir => 4
    case NoHashDir => 5
    case CompilerCheck => 6
    case CacheDir => 7
    case Other(_) => 8
  }

  function NameAt(k: nat): (name: Name)
    requires k < 8
    ensures Index(name) == k
  {
    match k
    case 0 => RealSrc
    case 1 => RealBld
    case 2 => LinkSrc
    case 3 => LinkBld
    case 4 => BaseDir
    case 5 => NoHashDir
    case 6 => CompilerCheck
    case 7 => CacheDir
  }

  /** A build's resolved directories and the number of slots it tries. */
  datatype Config = Config(src: string, bld: string, slots: nat)

  /** The work root's paths, and every build. */
  datatype Setup = Setup(slotDir: nat -> string, cacheDir: string, config: nat -> Config)

  datatype Phase =
    | Trying(n: nat)          // the lock loop
    | Saving
    | LinkingSrc
    | LinkingBld
    | Setting(k: nat)         // the k-th environment write
    | Clearing(k: nat)        // the k-th `pop` without a slot
    | Yielded
    | Body
    | Restoring(k: nat)       // the finally block
    | Releasing
    | Finished
    | Killed

  datatype Build = Build(
    phase: Phase, held: Option<nat>, env: Environment, saved: Environment,
    entry: Environment,       // the environment at entry
    theirs: Environment)      // what the process itself set, for the other variables

  datatype System = System(owner: map<nat, nat>, srcLink: map<nat, string>, bldLink: map<nat, string>,
                           builds: map<nat, Build>)

  function Lookup(env: Environment, name: Name): Option<string> {
    if name in env then Some(env[name]) else None
  }

  function Put(env: Environment, name: Name, value: Option<string>): Environment {
    if value.Some? then env[name := value.value] else env - {name}
  }

  /** What slot `n` puts into the environment of build `b`. */
  function Assigned(c: Setup, b: nat, n: nat, entry: Environment, name: Name): Option<string> {
    match name
    case RealSrc => Some(c.config(b).src)
    case RealBld => Some(c.config(b).bld)
    case LinkSrc => Some(c.slotDir(n) + "/src")
    case LinkBld => Some(c.slotDir(n) + "/bld")
    case BaseDir => Some(c.slotDir(n))
    case NoHashDir => Some("true")
    case CompilerCheck => Some("content")
    case CacheDir => if CacheDir in entry then Some(entry[CacheDir]) else Some(c.cacheDir)
    case Other(_) => None
  }

  // ------------------------------------------------------------------
  // Steps

  datatype Action =
    | Acquire | Miss            // a lock attempt that succeeds, or does not
    | Advance                   // the next statement
    | Write(name: Name, value: Option<string>)
    | Raise                     // the current statement raises
    | Leave                     // the body ends
    | Kill

  predicate Enabled(c: Setup, s: System, b: nat, a: Action) {
    b in s.builds &&
    var p := s.builds[b].phase;
    match a
    case Acquire => p.Trying? && p.n < c.config(b).slots && p.n !in s.owner
    case Miss => p.Trying?
    case Advance => !(p.Trying? || p.Body? || p.Finished? || p.Killed?)
    case Write(_, _) => p.Body?
    case Raise => p.LinkingSrc? || p.LinkingBld? || p.Setting? || p.Clearing? || p.Yielded? || p.Body?
    case Leave => p.Body?
    case Kill => !(p.Finished? || p.Killed?)
  }

  /** The next statement of a build that is past the lock loop. */
  function AdvanceBuild(c: Setup, b: nat, x: Build): Build {
    match x.phase
    case Saving => x.(saved := x.env, phase := if x.held.Some? then LinkingSrc else Clearing(0))
    case LinkingSrc => x.(phase := LinkingBld)
    case LinkingBld => x.(phase := Setting(0))
    case Setting(k) =>
      if k < 8 && x.held.Some?
      then x.(phase := Setting(k + 1),
              env := if k == 7 && CacheDir in x.env then x.env   // setdefault
                     else Put(x.env, NameAt(k), Assigned(c, b, x.held.value, x.entry, NameAt(k))))
      else x.(phase := Yielded)
    case Clearing(k) =>
      if k < 4 then x.(phase := Clearing(k + 1), env := x.env - {NameAt(k)}) else x.(phase := Yielded)
    case Yielded => x.(phase := Body)
    case Restoring(k) =>
      if k < 8 then x.(phase := Restoring(k + 1), env := Put(x.env, NameAt(k), Lookup(x.saved, NameAt(k))))
      else x.(phase := Releasing)
    case Releasing => x.(phase := Finished, held := None)
    case _ => x
  }

  function Step(c: Setup, s: System, b: nat, a: Action): System
    requires Enabled(c, s, b, a)
  {
    var x := s.builds[b];
    match a
    case Acquire =>
      s.(owner := s.owner[x.phase.n := b], builds := s.builds[b := x.(phase := Saving, held := Some(x.phase.n))])
    case Miss =>
      s.(builds := s.builds[b := x.(phase := if x.phase.n < c.config(b).slots then Trying(x.phase.n + 1) else Saving)])
    case Advance =>
      var next := s.(builds := s.builds[b := AdvanceBuild(c, b, x)]);
      if x.held.None? then next
      else if x.phase.LinkingSrc? then next.(srcLink := s.srcLink[x.held.value := c.config(b).src])
      else if x.phase.LinkingBld? then next.(bldLink := s.bldLink[x.held.value := c.config(b).bld])
      else if x.phase.Releasing? then next.(owner := s.owner - {x.held.value})
      else next
    case Write(name, value) =>
      s.(builds := s.builds[b := x.(env := Put(x.env, name, value),
                                    theirs := if Index(name) == 8 then Put(x.theirs, name, value) else x.theirs)])
    case Raise => s.(builds := s.builds[b := x.(phase := Restoring(0))])
    case Leave => s.(builds := s.builds[b := x.(phase := Restoring(0))])
    case Kill =>
      s.(owner := if x.held.Some? then s.owner - {x.held.value} else s.owner,
         builds := s.builds[b := x.(phase := Killed, held := None)])
  }

  // ------------------------------------------------------------------
  // The invariant

  /** What a variable holds, phase by phase. */
  ghost predicate VariableOk(c: Setup, b: nat, x: Build, name: Name) {
    var value, entry := Lookup(x.env, name), Lookup(x.entry, name);
    if Index(name) == 8 then value == Lookup(x.theirs, name)
    else
      match x.phase
      case Setting(k) =>
        value == if x.held.Some? && Index(name) < k then Assigned(c, b, x.held.value, x.entry, name) else entry
      case Clearing(k) => value == if Index(name) < k then None else entry
      case Yielded =>
        value == if x.held.Some? then Assigned(c, b, x.held.value, x.entry, name)
                 else if Index(name) < 4 then None else entry
      case Body => true
      case Restoring(k) => Index(name) < k ==> value == entry
      case Killed => true
      case _ => value == entry
  }

  ghost predicate EnvOk(c: Setup, b: nat, x: Build) { forall name :: VariableOk(c, b, x, name) }

  ghost predicate SavedOk(x: Build) {
    x.phase.Trying? || x.phase.Saving? || x.phase.Killed? ||
    forall name :: Index(name) < 8 ==> Lookup(x.saved, name) == Lookup(x.entry, name)
  }

  ghost predicate PhaseOk(c: Setup, b: nat, x: Build) {
    && (x.phase.Trying? ==> x.held.None?)
    && (x.phase.LinkingSrc? || x.phase.LinkingBld? || x.phase.Setting? ==> x.held.Some?)
    && (x.phase.Clearing? ==> x.held.None? && x.phase.k <= 4)
    && (x.phase.Finished? || x.phase.Killed? ==> x.held.None?)
    && (x.phase.Setting? || x.phase.Restoring? ==> x.phase.k <= 8)
    && (x.held.Some? ==> x.held.value < c.config(b).slots)
  }

  /** Whether a build with a slot has already pointed its links at its directories. */
  predicate SrcLinked(p: Phase) { p.LinkingBld? || BldLinked(p) }
  predicate BldLinked(p: Phase) { p.Setting? || p.Yielded? || p.Body? }

  ghost predicate BuildOk(c: Setup, s: System, b: nat)
    requires b in s.builds
  {
    var x := s.builds[b];
    EnvOk(c, b, x) && SavedOk(x) && PhaseOk(c, b, x) && SlotOk(c, s, b)
  }

  /** The owner of a slot holds it. */
  ghost predicate OwnerOk(s: System, n: nat) {
    n in s.owner ==> s.owner[n] in s.builds && s.builds[s.owner[n]].held == Some(n)
  }

  ghost predicate Inv(c: Setup, s: System) {
    && (forall b :: b in s.builds ==> BuildOk(c, s, b))
    && (forall n :: OwnerOk(s, n))
  }

  /** Any builds about to start, with any environments; no lock is held; links are arbitrary. */
  ghost predicate Init(s: System) {
    && s.owner == map[]
    && forall b :: b in s.builds ==>
         var x := s.builds[b];
         x.phase == Trying(0) && x.held.None? && x.entry == x.env && x.theirs == x.env
  }

  lemma {:induction false} InitOk(c: Setup, s: System)
    requires Init(s)
    ensures Inv(c, s)
  {
  }

  lemma {:induction false} PutLookup(env: Environment, name: Name, value: Option<string>, other: Name)
    ensures Lookup(Put(env, name, value), other) == if name == other then value else Lookup(env, other)
  {
  }

  lemma {:induction false} NameIndex(name: Name, k: nat)
    requires k < 8
    ensures Index(name) == k <==> name == NameAt(k)
  {
  }

  lemma {:induction false} SettingStep(c: Setup, b: nat, x: Build, name: Name)
    requires x.phase.Setting? && x.phase.k < 8 && x.held.Some?
    requires VariableOk(c, b, x, name) && VariableOk(c, b, x, CacheDir)
    ensures VariableOk(c, b, AdvanceBuild(c, b, x), name)
  {
    var k := x.phase.k;
    NameIndex(name, k);
    PutLookup(x.env, NameAt(k), Assigned(c, b, x.held.value, x.entry, NameAt(k)), name);
  }

  lemma {:induction false} ClearingStep(c: Setup, b: nat, x: Build, name: Name)
    requires x.phase.Clearing? && x.phase.k < 4 && VariableOk(c, b, x, name)
    ensures VariableOk(c, b, AdvanceBuild(c, b, x), name)
  {
    NameIndex(name, x.phase.k);
    PutLookup(x.env, NameAt(x.phase.k), None, name);
  }

  lemma {:induction false} RestoringStep(c: Setup, b: nat, x: Build, name: Name)
    requires x.phase.Restoring? && x.phase.k < 8 && VariableOk(c, b, x, name)
    requires Index(name) < 8 ==> Lookup(x.saved, name) == Lookup(x.entry, name)
    ensures VariableOk(c, b, AdvanceBuild(c, b, x), name)
  {
    NameIndex(name, x.phase.k);
    PutLookup(x.env, NameAt(x.phase.k), Lookup(x.saved, NameAt(x.phase.k)), name);
  }

  /** The remaining statements do not write the environment. */
  lemma {:induction false} PlainStep(c: Setup, b: nat, x: Build, name: Name)
    requires VariableOk(c, b, x, name) && PhaseOk(c, b, x)
    requires !(x.phase.Setting? && x.phase.k < 8) && !(x.phase.Clearing? && x.phase.k < 4)
    requires !(x.phase.Restoring? && x.phase.k < 8)
    ensures VariableOk(c, b, AdvanceBuild(c, b, x), name)
  {
    AdvanceIsPlain(c, b, x);
    SameEnv(c, b, x, AdvanceBuild(c, b, x), name);
  }

  /** The phases that a statement outside the three loops leads through. */
  ghost predicate Plain(x: Build, y: Build) {
    && y.env == x.env && y.entry == x.entry && y.theirs == x.theirs
    && (|| (y.phase == x.phase && y.held == x.held)
        || (x.phase == Setting(8) && x.held.Some? && y.phase.Yielded? && y.held == x.held)
        || (x.phase == Clearing(4) && x.held.None? && y.phase.Yielded? && y.held == x.held)
        || (x.phase.Yielded? && y.phase.Body?)
        || (x.phase == Restoring(8) && y.phase.Releasing?)
        || (x.phase.Releasing? && y.phase.Finished?)
        || (x.phase.Saving? && (y.phase.LinkingSrc? || y.phase == Clearing(0)))
        || (x.phase.LinkingSrc? && y.phase.LinkingBld?)
        || (x.phase.LinkingBld? && y.phase == Setting(0)))
  }

  lemma {:induction false} AdvanceIsPlain(c: Setup, b: nat, x: Build)
    requires PhaseOk(c, b, x)
    requires !(x.phase.Setting? && x.phase.k < 8) && !(x.phase.Clearing? && x.phase.k < 4)
    requires !(x.phase.Restoring? && x.phase.k < 8)
    ensures Plain(x, AdvanceBuild(c, b, x))
  {
  }

  lemma {:induction false} SameEnv(c: Setup, b: nat, x: Build, y: Build, name: Name)
    requires VariableOk(c, b, x, name) && Plain(x, y)
    ensures VariableOk(c, b, y, name)
  {
  }

  /** Inside a build, every statement keeps the account of its environment. */
  lemma {:induction false} AdvanceEnv(c: Setup, b: nat, x: Build)
    requires EnvOk(c, b, x) && SavedOk(x) && PhaseOk(c, b, x)
    ensures EnvOk(c, b, AdvanceBuild(c, b, x))
  {
    var y := AdvanceBuild(c, b, x);
    forall name ensures VariableOk(c, b, y, name) {
      assert VariableOk(c, b, x, name);
      if x.phase.Setting? && x.phase.k < 8 {
        assert VariableOk(c, b, x, CacheDir);
        SettingStep(c, b, x, name);
      } else if x.phase.Clearing? && x.phase.k < 4 {
        ClearingStep(c, b, x, name);
      } else if x.phase.Restoring? && x.phase.k < 8 {
        RestoringStep(c, b, x, name);
      } else {
        PlainStep(c, b, x, name);
      }
    }
  }

  lemma {:induction false} AdvanceSaved(c: Setup, b: nat, x: Build)
    requires EnvOk(c, b, x) && SavedOk(x) && PhaseOk(c, b, x)
    ensures SavedOk(AdvanceBuild(c, b, x)) && PhaseOk(c, b, AdvanceBuild(c, b, x))
  {
    if x.phase.Saving? {
      forall name | Index(name) < 8 ensures Lookup(x.env, name) == Lookup(x.entry, name) {
        assert VariableOk(c, b, x, name);
      }
    }
  }

  lemma {:induction false} WriteKeeps(c: Setup, b: nat, x: Build, name: Name, value: Option<string>, y: Build)
    requires EnvOk(c, b, x) && x.phase.Body?
    requires y == x.(env := Put(x.env, name, value),
                     theirs := if Index(name) == 8 then Put(x.theirs, name, value) else x.theirs)
    ensures EnvOk(c, b, y)
  {
    forall other ensures VariableOk(c, b, y, other) { assert VariableOk(c, b, x, other); }
  }

  /** Only the phase changes, to one that says no more about the eight variables. */
  lemma {:induction false} PhaseOnly(c: Setup, b: nat, x: Build, p: Phase, held: Option<nat>)
    requires EnvOk(c, b, x) && SavedOk(x)
    requires
      || p == Killed
      || (p == Restoring(0) && !(x.phase.Trying? || x.phase.Saving? || x.phase.Killed?))
      || (x.phase.Trying? && (p.Trying? || p.Saving?))
    ensures EnvOk(c, b, x.(phase := p, held := held)) && SavedOk(x.(phase := p, held := held))
  {
    var y := x.(phase := p, held := held);
    forall name ensures VariableOk(c, b, y, name) { assert VariableOk(c, b, x, name); }
  }

  /** The stepping build keeps its own part of the invariant. */
  lemma {:induction false} OwnEnv(c: Setup, s: System, b: nat, a: Action)
    requires Inv(c, s) && Enabled(c, s, b, a)
    ensures var y := Step(c, s, b, a).builds[b]; EnvOk(c, b, y) && SavedOk(y) && PhaseOk(c, b, y)
  {
    var x := s.builds[b];
    assert BuildOk(c, s, b);
    match a {
      case Acquire => PhaseOnly(c, b, x, Saving, Some(x.phase.n));
      case Miss => PhaseOnly(c, b, x, Step(c, s, b, a).builds[b].phase, x.held);
      case Advance => AdvanceEnv(c, b, x); AdvanceSaved(c, b, x);
      case Write(name, value) => WriteKeeps(c, b, x, name, value, Step(c, s, b, a).builds[b]);
      case Raise => PhaseOnly(c, b, x, Restoring(0), x.held);
      case Leave => PhaseOnly(c, b, x, Restoring(0), x.held);
      case Kill => PhaseOnly(c, b, x, Killed, None);
    }
  }

  /** Its slot is its own, and its links are where it has put them. */
  ghost predicate SlotOk(c: Setup, s: System, b: nat)
    requires b in s.builds
  {
    var x := s.builds[b];
    x.held.Some? ==>
      && x.held.value in s.owner && s.owner[x.held.value] == b
      && (SrcLinked(x.phase) ==> x.held.value in s.srcLink && s.srcLink[x.held.value] == c.config(b).src)
      && (BldLinked(x.phase) ==> x.held.value in s.bldLink && s.bldLink[x.held.value] == c.config(b).bld)
  }

  lemma {:induction false} OwnSlot(c: Setup, s: System, b: nat, a: Action)
    requires b in s.builds && SlotOk(c, s, b) && PhaseOk(c, b, s.builds[b]) && Enabled(c, s, b, a)
    ensures SlotOk(c, Step(c, s, b, a), b)
  {
  }

  /** No step of another build touches it. */
  lemma {:induction false} OtherStep(c: Setup, s: System, b: nat, a: Action, o: nat)
    requires Inv(c, s) && Enabled(c, s, b, a) && o in s.builds && o != b
    ensures BuildOk(c, Step(c, s, b, a), o)
  {
    assert BuildOk(c, s, b) && BuildOk(c, s, o);
  }

  lemma {:induction false} OwnerStep(c: Setup, s: System, b: nat, a: Action, n: nat)
    requires b in s.builds && SlotOk(c, s, b) && PhaseOk(c, b, s.builds[b]) && Enabled(c, s, b, a) && OwnerOk(s, n)
    ensures OwnerOk(Step(c, s, b, a), n)
  {
  }

  /** Every step of every build keeps the invariant. */
  lemma {:induction false} StepOk(c: Setup, s: System, b: nat, a: Action)
    requires Inv(c, s) && Enabled(c, s, b, a)
    ensures Inv(c, Step(c, s, b, a))
  {
    var s' := Step(c, s, b, a);
    forall o | o in s'.builds ensures BuildOk(c, s', o) {
      if o == b {
        assert BuildOk(c, s, b);
        OwnEnv(c, s, b, a);
        OwnSlot(c, s, b, a);
      } else {
        OtherStep(c, s, b, a, o);
      }
    }
    assert BuildOk(c, s, b);
    forall n ensures OwnerOk(s', n) { OwnerStep(c, s, b, a, n); }
  }

  // ------------------------------------------------------------------
  // Whole runs

  /** An interleaving: each state follows from the one before by some build's step. */
  ghost predicate IsRun(c: Setup, run: seq<System>) {
    && run != [] && Init(run[0])
    && forall i :: 0 <= i < |run| - 1 ==>
         exists b, a :: Enabled(c, run[i], b, a) && run[i + 1] == Step(c, run[i], b, a)
  }

  lemma {:induction false} RunOk(c: Setup, run: seq<System>, i: nat)
    requires IsRun(c, run) && i < |run|
    ensures Inv(c, run[i])
  {
    if i == 0 {
      InitOk(c, run[0]);
    } else {
      RunOk(c, run, i - 1);
      var j := i - 1;
      var b, a :| Enabled(c, run[j], b, a) && run[j + 1] == Step(c, run[j], b, a);
      StepOk(c, run[j], b, a);
    }
  }

  /** In every interleaving, no two builds hold the same slot. */
  lemma {:induction false} SlotsAreExclusive(c: Setup, run: seq<System>, i: nat, b: nat, o: nat)
    requires IsRun(c, run) && i < |run| && b in run[i].builds && o in run[i].builds
    requires run[i].builds[b].held.Some? && run[i].builds[b].held == run[i].builds[o].held
    ensures b == o
  {
    RunOk(c, run, i);
    assert BuildOk(c, run[i], b) && BuildOk(c, run[i], o);
  }

  /** A build in its body with slot `n` sees both links of `n` name its own directories. */
  lemma {:induction false} BodySeesItsOwnLinks(c: Setup, run: seq<System>, i: nat, b: nat)
    requires IsRun(c, run) && i < |run| && b in run[i].builds
    requires run[i].builds[b].phase.Body? && run[i].builds[b].held.Some?
    ensures var s, n := run[i], run[i].builds[b].held.value;
      && n < c.config(b).slots
      && n in s.srcLink && s.srcLink[n] == c.config(b).src
      && n in s.bldLink && s.bldLink[n] == c.config(b).bld
  {
    RunOk(c, run, i);
    assert BuildOk(c, run[i], b);
  }

  /** The environment the body starts with: the slot's variables, or none of the four. */
  lemma {:induction false} BodyStartsWith(c: Setup, run: seq<System>, i: nat, b: nat)
    requires IsRun(c, run) && i < |run| && b in run[i].builds && run[i].builds[b].phase.Yielded?
    ensures var x := run[i].builds[b];
      if x.held.Some?
      then forall name :: Index(name) < 8 ==> Lookup(x.env, name) == Assigned(c, b, x.held.value, x.entry, name)
      else (forall name :: Index(name) < 4 ==> name !in x.env) &&
           (forall name :: 4 <= Index(name) < 8 ==> Lookup(x.env, name) == Lookup(x.entry, name))
  {
    RunOk(c, run, i);
    var x := run[i].builds[b];
    assert BuildOk(c, run[i], b);
    forall name: Name | Index(name) < 8
      ensures Lookup(x.env, name) ==
        if x.held.Some? then Assigned(c, b, x.held.value, x.entry, name)
        else if Index(name) < 4 then None else Lookup(x.entry, name)
    {
      assert VariableOk(c, b, x, name);
    }
  }

  /**
   With a slot, the body starts with each link variable holding the path of the slot's link and
   each real variable holding what that link names, and with ccache's own settings for the slot.
   */
  lemma {:induction false} VariablesNameTheLinks(c: Setup, run: seq<System>, i: nat, b: nat)
    requires IsRun(c, run) && i < |run| && b in run[i].builds
    requires run[i].builds[b].phase.Yielded? && run[i].builds[b].held.Some?
    ensures var s, x, n := run[i], run[i].builds[b], run[i].builds[b].held.value;
      && n in s.srcLink && n in s.bldLink
      && Lookup(x.env, LinkSrc) == Some(c.slotDir(n) + "/src") && Lookup(x.env, RealSrc) == Some(s.srcLink[n])
      && Lookup(x.env, LinkBld) == Some(c.slotDir(n) + "/bld") && Lookup(x.env, RealBld) == Some(s.bldLink[n])
      && s.srcLink[n] == c.config(b).src && s.bldLink[n] == c.config(b).bld
      && Lookup(x.env, BaseDir) == Some(c.slotDir(n))
      && Lookup(x.env, NoHashDir) == Some("true") && Lookup(x.env, CompilerCheck) == Some("content")
      && Lookup(x.env, CacheDir) == if CacheDir in x.entry then Lookup(x.entry, CacheDir) else Some(c.cacheDir)
  {
    RunOk(c, run, i);
    assert BuildOk(c, run[i], b);
    BodyStartsWith(c, run, i, b);
    var x := run[i].builds[b];
    forall k: nat | k < 8
      ensures Lookup(x.env, NameAt(k)) == Assigned(c, b, x.held.value, x.entry, NameAt(k)) { }
    assert NameAt(0) == RealSrc && NameAt(1) == RealBld && NameAt(2) == LinkSrc && NameAt(3) == LinkBld;
    assert NameAt(4) == BaseDir && NameAt(5) == NoHashDir && NameAt(6) == CompilerCheck && NameAt(7) == CacheDir;
  }

  /** On normal or exceptional exit every saved variable is back, and no other one was touched. */
  lemma {:induction false} ExitRestores(c: Setup, run: seq<System>, i: nat, b: nat)
    requires IsRun(c, run) && i < |run| && b in run[i].builds && run[i].builds[b].phase.Finished?
    ensures var x := run[i].builds[b];
      && x.held.None? && (forall n :: n in run[i].owner ==> run[i].owner[n] != b)
      && forall name :: Lookup(x.env, name) ==
           if Index(name) < 8 then Lookup(x.entry, name) else Lookup(x.theirs, name)
  {
    RunOk(c, run, i);
    FinishedHolds(c, run[i], b);
  }

  lemma {:induction false} FinishedHolds(c: Setup, s: System, b: nat)
    requires Inv(c, s) && b in s.builds && s.builds[b].phase.Finished?
    ensures var x := s.builds[b];
      && x.held.None? && (forall n :: n in s.owner ==> s.owner[n] != b)
      && forall name :: Lookup(x.env, name) ==
           if Index(name) < 8 then Lookup(x.entry, name) else Lookup(x.theirs, name)
  {
    var x := s.builds[b];
    assert BuildOk(c, s, b);
    forall n | n in s.owner ensures s.owner[n] != b { assert OwnerOk(s, n); }
    forall name ensures Lookup(x.env, name) ==
      if Index(name) < 8 then Lookup(x.entry, name) else Lookup(x.theirs, name)
    {
      assert VariableOk(c, b, x, name);
    }
  }

  // ------------------------------------------------------------------
  // Which slots were tried

  /** Up to state `i` build `b` came to the lock attempt for slot `n`. */
  ghost predicate CameTo(run: seq<System>, i: nat, b: nat, n: nat)
    requires i < |run|
  {
    exists j :: 0 <= j <= i && b in run[j].builds && run[j].builds[b].phase == Trying(n)
  }

  /** A slot is held only after every lower one was tried, and none only after all were. */
  ghost predicate Searched(c: Setup, run: seq<System>, i: nat, b: nat)
    requires i < |run| && b in run[i].builds
  {
    var x := run[i].builds[b];
    && (x.phase.Trying? ==> x.held.None? && forall n: nat :: n <= x.phase.n ==> CameTo(run, i, b, n))
    && (x.held.Some? ==> forall n: nat :: n <= x.held.value ==> CameTo(run, i, b, n))
    && (Slotless(x) ==> forall n: nat :: n <= c.config(b).slots ==> CameTo(run, i, b, n))
  }

  /** A build without a slot that is past the lock loop and has not been interrupted. */
  ghost predicate Slotless(x: Build) {
    x.held.None? && (x.phase.Saving? || x.phase.Clearing? || x.phase.Yielded? || x.phase.Body?)
  }

  /** What one step does to a build's search. */
  ghost predicate GoesOn(c: Setup, b: nat, x: Build, y: Build) {
    && (y.phase.Trying? ==> y.held.None? && x.phase.Trying? && (y.phase == x.phase || y.phase.n == x.phase.n + 1))
    && (y.held.Some? ==> y.held == x.held || (x.phase.Trying? && y.held.value == x.phase.n))
    && (Slotless(y) ==> Slotless(x) || (x.phase.Trying? && x.phase.n >= c.config(b).slots))
  }

  lemma {:induction false} AdvanceGoesOn(c: Setup, b: nat, x: Build)
    requires PhaseOk(c, b, x) && !(x.phase.Trying? || x.phase.Body? || x.phase.Finished? || x.phase.Killed?)
    ensures GoesOn(c, b, x, AdvanceBuild(c, b, x))
  {
  }

  lemma {:induction false} StepGoesOn(c: Setup, s: System, b: nat, a: Action)
    requires Enabled(c, s, b, a) && PhaseOk(c, b, s.builds[b])
    ensures b in Step(c, s, b, a).builds && GoesOn(c, b, s.builds[b], Step(c, s, b, a).builds[b])
  {
    if a.Advance? { AdvanceGoesOn(c, b, s.builds[b]); }
  }

  lemma {:induction false} OthersStay(c: Setup, s: System, b: nat, a: Action)
    requires Enabled(c, s, b, a)
    ensures Step(c, s, b, a).builds.Keys == s.builds.Keys
    ensures forall o :: o in s.builds && o != b ==> Step(c, s, b, a).builds[o] == s.builds[o]
  {
  }

  lemma {:induction false} SearchedOn(c: Setup, run: seq<System>, i: nat, b: nat)
    requires 0 < i < |run| && b in run[i - 1].builds && b in run[i].builds && Searched(c, run, i - 1, b)
    requires GoesOn(c, b, run[i - 1].builds[b], run[i].builds[b])
    ensures Searched(c, run, i, b)
  {
    forall n: nat | CameTo(run, i - 1, b, n) ensures CameTo(run, i, b, n) { }
    var y := run[i].builds[b];
    if y.phase.Trying? { assert CameTo(run, i, b, y.phase.n); }
  }

  /** Every build tries the slots in order and stops at the first it gets. */
  lemma {:induction false} TriesInOrder(c: Setup, run: seq<System>, i: nat, b: nat)
    requires IsRun(c, run) && i < |run| && b in run[i].builds
    ensures Searched(c, run, i, b)
  {
    if i == 0 {
      assert run[0].builds[b].phase == Trying(0);
    } else {
      var j := i - 1;
      var o, a :| Enabled(c, run[j], o, a) && run[j + 1] == Step(c, run[j], o, a);
      OthersStay(c, run[j], o, a);
      TriesInOrder(c, run, j, b);
      assert GoesOn(c, b, run[j].builds[b], run[i].builds[b]) by {
        RunOk(c, run, j);
        assert BuildOk(c, run[j], b) && BuildOk(c, run[j], o);
        StepGoesOn(c, run[j], o, a);
      }
      SearchedOn(c, run, i, b);
    }
  }
}
