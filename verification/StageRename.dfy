/** The ownership-checked, bounded-retry rename of a stage, under interference at every step. */
module StageRename {
  type Path = seq<string>

  /** What Lstat tells about a path; directories carry the identity os.SameFile compares. */
  datatype Probe = Absent | RealDir(id: nat) | NotDir | Unreadable

  type World = Path -> Probe

  datatype Act =
    | Rename(ok: bool, transient: bool)
    | Sleep(now: int, delay: int)
    | Verify(ok: bool)
    | RemoveAll

  datatype Parent = Parent(path: Path, id: nat)

  function Dir(p: Path): Path {
    if p == [] then [] else p[..|p| - 1]
  }

  /**
   The environment's choices: worlds(k) is the filesystem after the k-th act of this run, and the other
   functions give the outcome of the k-th act and the k-th reading of the clock.
   */
  class Environment {
    const worlds: nat -> World
    const renameOk: nat -> bool
    const transient: nat -> bool
    const verifyOk: nat -> bool
    const removeOk: nat -> bool
    const clock: nat -> int
    var step: nat
    var readings: nat
    ghost var trace: seq<Act>

    constructor (worlds: nat -> World, renameOk: nat -> bool, transient: nat -> bool, verifyOk: nat -> bool,
                 removeOk: nat -> bool, clock: nat -> int)
      ensures this.worlds == worlds && this.renameOk == renameOk && this.transient == transient
      ensures this.verifyOk == verifyOk && this.removeOk == removeOk && this.clock == clock
      ensures Valid() && step == 0 && readings == 0 && trace == []
    {
      this.worlds, this.renameOk, this.transient := worlds, renameOk, transient;
      this.verifyOk, this.removeOk, this.clock := verifyOk, removeOk, clock;
      step, readings, trace := 0, 0, [];
    }

    /** One world per act. */
    ghost predicate Valid()
      reads this
    {
      |trace| == step
    }

    function Now(): World
      reads this
    {
      worlds(step)
    }

    method ReadClock() returns (t: int)
      modifies this`readings
      ensures t == clock(old(readings)) && readings == old(readings) + 1
    {
      t := clock(readings);
      readings := readings + 1;
    }

    method DoRename() returns (ok: bool, retryable: bool)
      requires Valid()
      modifies this`step, this`trace
      ensures Valid() && trace == old(trace) + [Rename(ok, retryable)]
      ensures ok == renameOk(old(step)) && retryable == transient(old(step))
    {
      ok, retryable := renameOk(step), transient(step);
      step := step + 1;
      trace := trace + [Rename(ok, retryable)];
    }

    method DoSleep(now: int, delay: int)
      requires Valid()
      modifies this`step, this`trace
      ensures Valid() && trace == old(trace) + [Sleep(now, delay)]
    {
      step := step + 1;
      trace := trace + [Sleep(now, delay)];
    }

    method DoVerify() returns (ok: bool)
      requires Valid()
      modifies this`step, this`trace
      ensures Valid() && trace == old(trace) + [Verify(ok)] && ok == verifyOk(old(step))
    {
      ok := verifyOk(step);
      step := step + 1;
      trace := trace + [Verify(ok)];
    }

    method DoRemoveAll() returns (ok: bool)
      requires Valid()
      modifies this`step, this`trace
      ensures Valid() && trace == old(trace) + [RemoveAll] && ok == removeOk(old(step))
    {
      ok := removeOk(step);
      step := step + 1;
      trace := trace + [RemoveAll];
    }
  }

  // ---------------------------------------------------------------- what a trace may look like

  function Renames(acts: seq<Act>): nat {
    if acts == [] then 0 else Renames(acts[..|acts| - 1]) + if acts[|acts| - 1].Rename? then 1 else 0
  }

  lemma RenamesSnoc(acts: seq<Act>, a: Act)
    ensures Renames(acts + [a]) == Renames(acts) + if a.Rename? then 1 else 0
  {
  }

  /** Stage still the bound directory, target absent, every ancestor unchanged. */
  predicate PreHolds(w: World, stage: Path, target: Path, identity: nat, parents: seq<Parent>) {
    && (forall i :: 0 <= i < |parents| ==> w(parents[i].path) == RealDir(parents[i].id))
    && w(stage) == RealDir(identity) && w(target) == Absent
  }

  /** The bound directory at the target, stage absent, every ancestor unchanged. */
  predicate Promoted(w: World, stage: Path, target: Path, identity: nat, parents: seq<Parent>) {
    && (forall i :: 0 <= i < |parents| ==> w(parents[i].path) == RealDir(parents[i].id))
    && w(stage) == Absent && w(target) == RealDir(identity)
  }

  lemma PreIsNotPromoted(w: World, stage: Path, target: Path, identity: nat, parents: seq<Parent>)
    requires PreHolds(w, stage, target, identity, parents)
    ensures !Promoted(w, stage, target, identity, parents)
  {
  }

  /** The delay before the next attempt, in milliseconds. */
  function Backoff(attempts: nat): nat {
    attempts * 20
  }

  /**
   What may follow the first k acts. The clock is read once before the first attempt, which starts the window, and
   once after every act: clock(first + k) is the reading between the acts k - 1 and k.
   */
  ghost predicate Follows(clock: nat -> int, first: nat, window: int, maximum: int, acts: seq<Act>, a: Act) {
    var t, last := clock(first + |acts|), clock(first) + window;
    match a
    case Rename(_, _) => acts == [] || (acts[|acts| - 1] == Verify(true) && t < last)
    case Sleep(now, delay) =>
      && acts != [] && acts[|acts| - 1] == Rename(false, true) && Renames(acts) < maximum
      && now == t && delay == Backoff(Renames(acts)) && now + delay < last
    case Verify(_) => acts != [] && acts[|acts| - 1].Sleep? && t < last
    case RemoveAll => false
  }

  /** The prestate holds in the world of the k-th act. */
  ghost predicate PreAt(worlds: nat -> World, base: nat, k: nat, stage: Path, target: Path, identity: nat,
                        parents: seq<Parent>) {
    PreHolds(worlds(base + k), stage, target, identity, parents)
  }

  /** A nil result means the last act was a successful rename. */
  ghost predicate EndsRenamed(acts: seq<Act>) {
    acts != [] && acts[|acts| - 1].Rename? && acts[|acts| - 1].ok
  }

  class StageRename {
    const stage: Path
    const target: Path
    const identity: nat
    const parents: seq<Parent>
    var retained: bool
    var promoted: bool
    const env: Environment

    constructor (stage: Path, target: Path, identity: nat, parents: seq<Parent>, env: Environment)
      ensures this.stage == stage && this.target == target && this.identity == identity && this.parents == parents
      ensures this.env == env && !retained && !promoted
    {
      this.stage, this.target, this.identity, this.parents, this.env := stage, target, identity, parents, env;
      retained, promoted := false, false;
    }

    predicate Pre()
      reads env
    {
      PreHolds(env.Now(), stage, target, identity, parents)
    }

    predicate Owned()
      reads env
    {
      Promoted(env.Now(), stage, target, identity, parents)
    }

    /**
     The discipline of a run that starts at act base and clock reading first: every act is dispatched in a proved
     prestate, and follows the acts before it as the retry rules say.
     */
    ghost predicate Disciplined(base: nat, first: nat, maximum: int, window: int, acts: seq<Act>) {
      forall k :: 0 <= k < |acts| ==>
        && PreAt(env.worlds, base, k, stage, target, identity, parents)
        && Follows(env.clock, first, window, maximum, acts[..k], acts[k])
    }

    lemma DisciplinedSnoc(base: nat, first: nat, maximum: int, window: int, acts: seq<Act>, a: Act)
      requires Disciplined(base, first, maximum, window, acts)
      requires PreAt(env.worlds, base, |acts|, stage, target, identity, parents)
      requires Follows(env.clock, first, window, maximum, acts, a)
      ensures Disciplined(base, first, maximum, window, acts + [a])
    {
      hide PreAt, Follows;
      var all := acts + [a];
      forall k | 0 <= k < |all|
        ensures PreAt(env.worlds, base, k, stage, target, identity, parents)
        ensures Follows(env.clock, first, window, maximum, all[..k], all[k])
      {
        if k < |acts| {
          assert all[..k] == acts[..k] && all[k] == acts[k];
        } else {
          assert all[..k] == acts;
        }
      }
    }

    lemma NothingDone(base: nat, first: nat, maximum: int, window: int)
      ensures Disciplined(base, first, maximum, window, []) && Renames([]) == 0 && !EndsRenamed([])
    {
    }

    lemma RenameMayFollow(base: nat, first: nat, maximum: int, window: int, acts: seq<Act>, a: Act)
      requires Disciplined(base, first, maximum, window, acts) && a.Rename?
      requires PreAt(env.worlds, base, |acts|, stage, target, identity, parents)
      requires acts != [] ==>
                 acts[|acts| - 1] == Verify(true) && env.clock(first + |acts|) < env.clock(first) + window
      ensures Disciplined(base, first, maximum, window, acts + [a]) && Renames(acts + [a]) == Renames(acts) + 1
    {
      RenamesSnoc(acts, a);
      DisciplinedSnoc(base, first, maximum, window, acts, a);
    }

    lemma SleepMayFollow(base: nat, first: nat, maximum: int, window: int, acts: seq<Act>)
      requires Disciplined(base, first, maximum, window, acts)
      requires PreAt(env.worlds, base, |acts|, stage, target, identity, parents)
      requires acts != [] && acts[|acts| - 1] == Rename(false, true) && Renames(acts) < maximum
      requires env.clock(first + |acts|) + Backoff(Renames(acts)) < env.clock(first) + window
      ensures var a := Sleep(env.clock(first + |acts|), Backoff(Renames(acts)));
              Disciplined(base, first, maximum, window, acts + [a]) && Renames(acts + [a]) == Renames(acts)
    {
      var a := Sleep(env.clock(first + |acts|), Backoff(Renames(acts)));
      RenamesSnoc(acts, a);
      DisciplinedSnoc(base, first, maximum, window, acts, a);
    }

    lemma VerifyMayFollow(base: nat, first: nat, maximum: int, window: int, acts: seq<Act>, ok: bool)
      requires Disciplined(base, first, maximum, window, acts)
      requires PreAt(env.worlds, base, |acts|, stage, target, identity, parents)
      requires acts != [] && acts[|acts| - 1].Sleep? && env.clock(first + |acts|) < env.clock(first) + window
      ensures Disciplined(base, first, maximum, window, acts + [Verify(ok)])
      ensures Renames(acts + [Verify(ok)]) == Renames(acts)
    {
      RenamesSnoc(acts, Verify(ok));
      DisciplinedSnoc(base, first, maximum, window, acts, Verify(ok));
    }

    /** The last act left a state that cannot be told apart from foreign changes; w is that state. */
    ghost predicate Ambiguous(first: nat, window: int, acts: seq<Act>, w: World)
      requires acts != []
    {
      var pre := PreHolds(w, stage, target, identity, parents);
      match acts[|acts| - 1]
      case Rename(true, _) => !Promoted(w, stage, target, identity, parents)
      case Rename(false, _) => !pre
      case Sleep(_, _) => !pre && env.clock(first + |acts|) < env.clock(first) + window
      case Verify(ok) => !ok || !pre
      case RemoveAll => false
    }

    lemma OwnedIsUnambiguous(first: nat, window: int, acts: seq<Act>, w: World)
      requires EndsRenamed(acts) && Promoted(w, stage, target, identity, parents)
      ensures !Ambiguous(first, window, acts, w)
    {
    }

    /** The last act left the prestate as far as the run looked, and no further attempt is allowed. */
    ghost predicate Exhausted(first: nat, maximum: int, window: int, acts: seq<Act>, w: World)
      requires acts != []
    {
      var pre, t := PreHolds(w, stage, target, identity, parents), env.clock(first + |acts|);
      match acts[|acts| - 1]
      case Rename(ok, transient) =>
        && !ok && pre
        && (!transient || Renames(acts) >= maximum || window - (t - env.clock(first)) <= Backoff(Renames(acts)))
      case Sleep(_, _) => t >= env.clock(first) + window
      case Verify(ok) => ok && pre && t >= env.clock(first) + window
      case RemoveAll => false
    }

    lemma RenameVerdict(first: nat, maximum: int, window: int, acts: seq<Act>, a: Act, w: World)
      requires a.Rename?
      ensures EndsRenamed(acts + [a]) <==> a.ok
      ensures Ambiguous(first, window, acts + [a], w)
              <==> if a.ok then !Promoted(w, stage, target, identity, parents)
                   else !PreHolds(w, stage, target, identity, parents)
      ensures !a.ok && (!a.transient || Renames(acts + [a]) >= maximum) ==>
                Ambiguous(first, window, acts + [a], w) || Exhausted(first, maximum, window, acts + [a], w)
    {
      hide PreHolds, Promoted, Renames;
    }

    lemma WindowVerdict(first: nat, maximum: int, window: int, acts: seq<Act>, w: World)
      requires acts != [] && acts[|acts| - 1] == Rename(false, true)
      requires PreHolds(w, stage, target, identity, parents)
      requires window - (env.clock(first + |acts|) - env.clock(first)) <= Backoff(Renames(acts))
      ensures !Ambiguous(first, window, acts, w) && Exhausted(first, maximum, window, acts, w)
    {
      hide PreHolds, Promoted, Renames;
    }

    lemma SleepVerdict(first: nat, maximum: int, window: int, acts: seq<Act>, w: World)
      requires acts != [] && acts[|acts| - 1].Sleep?
      ensures Ambiguous(first, window, acts, w)
              <==> !PreHolds(w, stage, target, identity, parents) && env.clock(first + |acts|) < env.clock(first) + window
      ensures Exhausted(first, maximum, window, acts, w) <==> env.clock(first + |acts|) >= env.clock(first) + window
    {
      hide PreHolds, Promoted, Renames;
    }

    lemma VerifyVerdict(first: nat, maximum: int, window: int, acts: seq<Act>, w: World)
      requires acts != [] && acts[|acts| - 1].Verify?
      ensures Ambiguous(first, window, acts, w)
              <==> !acts[|acts| - 1].ok || !PreHolds(w, stage, target, identity, parents)
      ensures !Ambiguous(first, window, acts, w) && env.clock(first + |acts|) >= env.clock(first) + window ==>
                Exhausted(first, maximum, window, acts, w)
    {
      hide PreHolds, Promoted, Renames;
    }

    /** The loop over the bound ancestors. */
    method ParentState() returns (ok: bool)
      ensures ok <==> forall i :: 0 <= i < |parents| ==> env.Now()(parents[i].path) == RealDir(parents[i].id)
    {
      var i := 0;
      while i < |parents|
        invariant 0 <= i <= |parents|
        invariant forall k :: 0 <= k < i ==> env.Now()(parents[k].path) == RealDir(parents[k].id)
      {
        if env.Now()(parents[i].path) != RealDir(parents[i].id) {
          return false;
        }
        i := i + 1;
      }
      return true;
    }

    method PreState() returns (ok: bool)
      ensures ok <==> Pre()
    {
      ok := ParentState();
      ok := ok && env.Now()(stage) == RealDir(identity) && env.Now()(target) == Absent;
    }

    /** The prestate, the content verification, and the prestate again. */
    method VerifiedPreState() returns (ok: bool)
      requires env.Valid()
      modifies env`step, env`trace
      ensures env.Valid()
      ensures env.trace == old(env.trace) + if old(Pre()) then [Verify(env.verifyOk(old(env.step)))] else []
      ensures ok <==> old(Pre()) && env.verifyOk(old(env.step)) && Pre()
    {
      ok := PreState();
      if ok {
        var passed := env.DoVerify();
        ok := PreState();
        ok := passed && ok;
      }
    }

    method OwnedTarget() returns (ok: bool)
      ensures ok <==> Owned()
    {
      ok := ParentState();
      ok := ok && env.Now()(stage) == Absent && env.Now()(target) == RealDir(identity);
    }

    /** One rename and the judgment of what it left. */
    method Attempt() returns (renamed: bool, stands: bool, retryable: bool)
      requires env.Valid()
      modifies this`retained, this`promoted, env`step, env`trace
      ensures env.Valid() && env.trace == old(env.trace) + [Rename(renamed, retryable)]
      ensures renamed == env.renameOk(old(env.step)) && retryable == env.transient(old(env.step))
      ensures stands <==> if renamed then Owned() else Pre()
      ensures retained <==> old(retained) || !stands
      ensures promoted <==> old(promoted) || (renamed && stands)
    {
      renamed, retryable := env.DoRename();
      if renamed {
        stands := OwnedTarget();
      } else {
        stands := PreState();
      }
      if !stands {
        retained := true;
      } else if renamed {
        promoted := true;
      }
    }

    /** Between two attempts: acts, started behind prior, stand in the prestate inside the window. */
    ghost predicate Between(prior: seq<Act>, acts: seq<Act>, base: nat, first: nat, maximum: int, window: int)
      reads env
    {
      && env.Valid() && env.trace == prior + acts && env.step == base + |acts| && env.readings == first + 1 + |acts|
      && Pre() && Renames(acts) < maximum && Disciplined(base, first, maximum, window, acts)
      && (acts != [] ==> acts[|acts| - 1] == Verify(true) && env.clock(first + |acts|) < env.clock(first) + window)
    }

    /** A run at its end: acts, started behind prior, and what the result and the retained flag say about them. */
    ghost predicate Ended(prior: seq<Act>, acts: seq<Act>, base: nat, first: nat, maximum: int, window: int, ok: bool,
                          kept: bool)
      reads this, env
    {
      && env.Valid() && env.trace == prior + acts && acts != []
      && Disciplined(base, first, maximum, window, acts) && Renames(acts) <= maximum
      && (ok <==> EndsRenamed(acts) && Owned())
      && (retained <==> kept || Ambiguous(first, window, acts, env.Now()))
      && (ok || Ambiguous(first, window, acts, env.Now()) || Exhausted(first, maximum, window, acts, env.Now()))
    }

    /** Behind a failed attempt that may be repeated: acts, started behind prior, left the prestate. */
    ghost predicate Failed(prior: seq<Act>, acts: seq<Act>, base: nat, first: nat, maximum: int, window: int)
      reads env
    {
      && env.Valid() && env.trace == prior + acts && env.step == base + |acts| && env.readings == first + |acts|
      && Pre() && Renames(acts) < maximum && Disciplined(base, first, maximum, window, acts)
      && acts != [] && acts[|acts| - 1] == Rename(false, true)
    }

    /** One attempt of the run. */
    method RunAttempt(ghost prior: seq<Act>, ghost acts: seq<Act>, ghost base: nat, ghost first: nat, maximum: int,
                      attempts: nat, ghost window: int)
      returns (over: bool, ok: bool, ghost after: seq<Act>)
      requires Between(prior, acts, base, first, maximum, window) && attempts == Renames(acts) + 1
      modifies this`retained, this`promoted, env`step, env`trace
      ensures over ==> Ended(prior, after, base, first, maximum, window, ok, old(retained))
                       && (promoted <==> old(promoted) || ok)
      ensures !over ==> !ok && Failed(prior, after, base, first, maximum, window) && Renames(after) == attempts
                        && retained == old(retained) && promoted == old(promoted)
    {
      hide PreHolds, Promoted, Disciplined, Renames, Follows, Ambiguous, Exhausted, EndsRenamed;
      ghost var a := Rename(env.renameOk(env.step), env.transient(env.step));
      RenameMayFollow(base, first, maximum, window, acts, a);
      RenameVerdict(first, maximum, window, acts, a, env.worlds(env.step + 1));
      var renamed, stands, retryable := Attempt();
      after := acts + [a];
      assert env.trace == prior + after;
      over := renamed || !stands || !retryable || attempts >= maximum;
      ok := renamed && stands;
    }

    /** Between a failed attempt and the next: the window test, the sleep, and the re-verified prestate. */
    method PrepareRetry(ghost prior: seq<Act>, ghost acts: seq<Act>, ghost base: nat, ghost first: nat,
                        ghost maximum: int, attempts: nat, begun: int, window: int)
      returns (again: bool, ghost after: seq<Act>)
      requires Failed(prior, acts, base, first, maximum, window)
      requires attempts == Renames(acts) && begun == env.clock(first)
      modifies this`retained, env
      ensures again ==> Between(prior, after, base, first, maximum, window) && Renames(after) == Renames(acts)
                        && retained == old(retained)
      ensures !again ==> Ended(prior, after, base, first, maximum, window, false, old(retained))
    {
      hide PreHolds, Promoted, Disciplined, Renames, Follows, Ambiguous, Exhausted;
      after := acts;
      var now := env.ReadClock();
      var delay := Backoff(attempts);
      if window - (now - begun) <= delay {
        WindowVerdict(first, maximum, window, acts, env.Now());
        return false, after;
      }
      SleepMayFollow(base, first, maximum, window, acts);
      env.DoSleep(now, delay);
      after := acts + [Sleep(now, delay)];
      assert env.trace == prior + after;
      again, after := Reverify(prior, after, base, first, maximum, begun, window);
    }

    /** The verification after a sleep, inside the window. */
    method Reverify(ghost prior: seq<Act>, ghost acts: seq<Act>, ghost base: nat, ghost first: nat, ghost maximum: int,
                    begun: int, window: int)
      returns (again: bool, ghost after: seq<Act>)
      requires env.Valid() && env.step == base + |acts| && env.readings == first + |acts|
      requires env.trace == prior + acts && begun == env.clock(first) && Renames(acts) < maximum
      requires acts != [] && acts[|acts| - 1].Sleep? && Disciplined(base, first, maximum, window, acts)
      modifies this`retained, env
      ensures again ==> Between(prior, after, base, first, maximum, window) && Renames(after) == Renames(acts)
                        && retained == old(retained)
      ensures !again ==> Ended(prior, after, base, first, maximum, window, false, old(retained))
    {
      hide PreHolds, Promoted, Disciplined, Renames, Follows, Ambiguous, Exhausted;
      after := acts;
      SleepVerdict(first, maximum, window, acts, env.Now());
      var woken := env.ReadClock();
      if woken >= begun + window {
        return false, after;
      }
      ghost var a, stands := Verify(env.verifyOk(env.step)), Pre();
      var pre := VerifiedPreState();
      if stands {
        VerifyMayFollow(base, first, maximum, window, acts, a.ok);
        after := acts + [a];
        assert env.trace == prior + after;
        VerifyVerdict(first, maximum, window, after, env.Now());
      }
      if !pre {
        retained := true;
        return false, after;
      }
      var checked := env.ReadClock();
      return checked < begun + window, after;
    }

    /** The attempts of a run whose prestate holds. */
    method Attempts(maximum: int, window: int) returns (ok: bool, ghost acts: seq<Act>)
      requires env.Valid() && Pre() && maximum >= 1
      modifies this, env
      ensures Ended(old(env.trace), acts, old(env.step), old(env.readings), maximum, window, ok, old(retained))
      ensures promoted <==> old(promoted) || ok
    {
      hide Disciplined, Renames, Ended, Failed, PreHolds;
      acts := [];
      NothingDone(env.step, env.readings, maximum, window);
      ghost var prior, base, first := env.trace, env.step, env.readings;
      var begun := env.ReadClock();
      var attempts := 0;
      var again := true;
      ok := false;
      while again
        invariant begun == env.clock(first)
        invariant again ==> Between(prior, acts, base, first, maximum, window) && attempts == Renames(acts) < maximum
                            && retained == old(retained) && promoted == old(promoted)
        invariant !again ==> Ended(prior, acts, base, first, maximum, window, ok, old(retained))
                             && (promoted <==> old(promoted) || ok)
        decreases maximum - attempts, again
      {
        attempts := attempts + 1;
        var over;
        over, ok, acts := RunAttempt(prior, acts, base, first, maximum, attempts, window);
        again := !over;
        if again {
          again, acts := PrepareRetry(prior, acts, base, first, maximum, attempts, begun, window);
        }
      }
    }

    // -------------------------------------------------------------- what discipline comes to

    /** In w the bound directory is at the stage, nothing is at the target, and every ancestor is the bound one. */
    predicate Bound(w: World) {
      && w(stage) == RealDir(identity) && w(target) == Absent
      && forall i :: 0 <= i < |parents| ==> w(parents[i].path) == RealDir(parents[i].id)
    }

    /** In w the bound directory is at the target, nothing is at the stage, and every ancestor is the bound one. */
    predicate Moved(w: World) {
      && w(target) == RealDir(identity) && w(stage) == Absent
      && forall i :: 0 <= i < |parents| ==> w(parents[i].path) == RealDir(parents[i].id)
    }

    /**
     Act k of a run: attempt, sleep and verification in turn, each in the bound state. The a-th sleep, behind a
     failed attempt that may be repeated, takes 20 * a milliseconds that end inside the window; a verification and a
     further attempt, behind a verification that passed, come inside the window too.
     */
    ghost predicate InTurn(base: nat, first: nat, maximum: int, window: int, acts: seq<Act>, k: nat)
      requires k < |acts|
    {
      var t, last, a := env.clock(first + k), env.clock(first) + window, k / 3 + 1;
      && Bound(env.worlds(base + k))
      && (k % 3 == 0 ==> acts[k].Rename? && (k > 0 ==> acts[k - 1] == Verify(true) && t < last))
      && (k % 3 == 1 ==> acts[k] == Sleep(t, 20 * a) && acts[k - 1] == Rename(false, true) && a < maximum && t + 20 * a < last)
      && (k % 3 == 2 ==> acts[k].Verify? && t < last)
    }

    ghost predicate AllInTurn(base: nat, first: nat, maximum: int, window: int, acts: seq<Act>) {
      forall k :: 0 <= k < |acts| ==> InTurn(base, first, maximum, window, acts, k)
    }

    /** A disciplined run is one whose every act is in turn. */
    lemma {:induction false} DisciplineIs(base: nat, first: nat, maximum: int, window: int, acts: seq<Act>)
      ensures Disciplined(base, first, maximum, window, acts) <==> AllInTurn(base, first, maximum, window, acts)
      ensures Disciplined(base, first, maximum, window, acts) ==> Renames(acts) == (|acts| + 2) / 3
    {
      if acts != [] {
        hide InTurn, Disciplined, Renames, AllInTurn, PreAt, Follows;
        var init, a := acts[..|acts| - 1], acts[|acts| - 1];
        DisciplineIs(base, first, maximum, window, init);
        assert acts == init + [a];
        TurnsSnoc(base, first, maximum, window, init, a);
        DisciplineSnocIs(base, first, maximum, window, init, a);
        if Disciplined(base, first, maximum, window, init) {
          LastTurn(base, first, maximum, window, init, a);
        }
      }
    }

    lemma TurnsSnoc(base: nat, first: nat, maximum: int, window: int, acts: seq<Act>, a: Act)
      ensures AllInTurn(base, first, maximum, window, acts + [a]) <==>
                AllInTurn(base, first, maximum, window, acts) && InTurn(base, first, maximum, window, acts + [a], |acts|)
    {
      hide InTurn;
      forall k: nat | k < |acts|
        ensures InTurn(base, first, maximum, window, acts + [a], k) <==> InTurn(base, first, maximum, window, acts, k)
      {
        SameTurn(base, first, maximum, window, acts, a, k);
      }
    }

    lemma SameTurn(base: nat, first: nat, maximum: int, window: int, acts: seq<Act>, a: Act, k: nat)
      requires k < |acts|
      ensures InTurn(base, first, maximum, window, acts + [a], k) <==> InTurn(base, first, maximum, window, acts, k)
    {
      hide Bound;
    }

    lemma DisciplineSnocIs(base: nat, first: nat, maximum: int, window: int, acts: seq<Act>, a: Act)
      ensures Disciplined(base, first, maximum, window, acts + [a]) <==>
                && Disciplined(base, first, maximum, window, acts)
                && PreAt(env.worlds, base, |acts|, stage, target, identity, parents)
                && Follows(env.clock, first, window, maximum, acts, a)
    {
      hide PreAt, Follows;
      var all := acts + [a];
      assert all[..|acts|] == acts && all[|acts|] == a;
      forall k | 0 <= k < |acts| ensures all[..k] == acts[..k] && all[k] == acts[k] {
      }
      if Disciplined(base, first, maximum, window, all) {
        forall k | 0 <= k < |acts|
          ensures PreAt(env.worlds, base, k, stage, target, identity, parents)
          ensures Follows(env.clock, first, window, maximum, acts[..k], acts[k])
        {
          assert all[..k] == acts[..k] && all[k] == acts[k];
        }
      }
      if Disciplined(base, first, maximum, window, acts) && PreAt(env.worlds, base, |acts|, stage, target, identity, parents)
         && Follows(env.clock, first, window, maximum, acts, a) {
        DisciplinedSnoc(base, first, maximum, window, acts, a);
      }
    }

    lemma LastTurn(base: nat, first: nat, maximum: int, window: int, acts: seq<Act>, a: Act)
      requires Renames(acts) == (|acts| + 2) / 3
      requires AllInTurn(base, first, maximum, window, acts)
      ensures InTurn(base, first, maximum, window, acts + [a], |acts|) <==>
                && PreAt(env.worlds, base, |acts|, stage, target, identity, parents)
                && Follows(env.clock, first, window, maximum, acts, a)
      ensures Follows(env.clock, first, window, maximum, acts, a) ==> Renames(acts + [a]) == (|acts| + 3) / 3
    {
      hide Renames, Bound, PreAt;
      RenamesSnoc(acts, a);
      BoundIs(base, |acts|);
      if acts != [] {
        assert InTurn(base, first, maximum, window, acts, |acts| - 1);
      }
    }

    /**
     A run without result that keeps nothing new stopped in the bound state after an attempt: one that may not be
     repeated, the last one allowed, or one whose next sleep would not end inside the window; or the window closed.
     */
    ghost predicate NoneLeft(first: nat, maximum: int, window: int, acts: seq<Act>, w: World)
      requires acts != []
    {
      var t, last, a := env.clock(first + |acts|), env.clock(first) + window, (|acts| + 2) / 3;
      match |acts| % 3
      case 1 => Bound(w) && acts[|acts| - 1].Rename? && !acts[|acts| - 1].ok
                && (!acts[|acts| - 1].transient || a >= maximum || t + 20 * a >= last)
      case 2 => t >= last
      case _ => Bound(w) && acts[|acts| - 1] == Verify(true) && t >= last
    }

    /**
     The last act left a state in which foreign changes cannot be ruled out: a successful rename did not leave the
     bound directory at the target, or the bound state is gone, or the content does not verify.
     */
    ghost predicate Doubtful(first: nat, window: int, acts: seq<Act>, w: World)
      requires acts != []
    {
      match acts[|acts| - 1]
      case Rename(ok, _) => if ok then !Moved(w) else !Bound(w)
      case Sleep(_, _) => !Bound(w) && env.clock(first + |acts|) < env.clock(first) + window
      case Verify(ok) => !ok || !Bound(w)
      case RemoveAll => false
    }

    lemma AmbiguousIs(first: nat, window: int, acts: seq<Act>, w: World)
      requires acts != []
      ensures Ambiguous(first, window, acts, w) <==> Doubtful(first, window, acts, w)
    {
      BoundNow(w);
    }

    lemma ExhaustedIs(base: nat, first: nat, maximum: int, window: int, acts: seq<Act>, w: World)
      requires acts != [] && Disciplined(base, first, maximum, window, acts)
      ensures Exhausted(first, maximum, window, acts, w) <==> NoneLeft(first, maximum, window, acts, w)
    {
      hide Renames, Disciplined, Bound, PreHolds;
      DisciplineIs(base, first, maximum, window, acts);
      assert InTurn(base, first, maximum, window, acts, |acts| - 1);
      BoundNow(w);
    }

    lemma BoundNow(w: World)
      ensures Bound(w) <==> PreHolds(w, stage, target, identity, parents)
      ensures Moved(w) <==> Promoted(w, stage, target, identity, parents)
    {
    }

    lemma BoundIs(base: nat, k: nat)
      ensures Bound(env.worlds(base + k)) <==> PreAt(env.worlds, base, k, stage, target, identity, parents)
    {
    }

    /** renameWithOps. The window is measured from the first clock reading of the run. */
    method RenameWithOps(hasVerifier: bool, maximum: int, window: int) returns (ok: bool, ghost acts: seq<Act>)
      requires env.Valid()
      modifies this, env
      ensures env.Valid() && env.trace == old(env.trace) + acts
      ensures acts == [] <==> !hasVerifier || maximum < 1 || !Bound(old(env.Now()))
      ensures ok <==> acts != [] && acts[|acts| - 1].Rename? && acts[|acts| - 1].ok && Moved(env.Now())
      ensures promoted <==> old(promoted) || ok
      ensures acts == [] ==> (retained <==> old(retained) || (hasVerifier && maximum >= 1))
      ensures acts != [] ==>
                && (retained <==> old(retained) || Doubtful(old(env.readings), window, acts, env.Now()))
                && (ok || Doubtful(old(env.readings), window, acts, env.Now())
                       || NoneLeft(old(env.readings), maximum, window, acts, env.Now()))
      ensures retained && promoted ==> old(retained) || old(promoted)
      ensures old(promoted) && Moved(old(env.Now())) && hasVerifier && maximum >= 1 ==> retained && promoted
      ensures AllInTurn(old(env.step), old(env.readings), maximum, window, acts)
      ensures (|acts| + 2) / 3 <= if maximum < 1 then 0 else maximum
    {
      hide PreHolds, Promoted, Disciplined, Renames, Follows, Ambiguous, Exhausted;
      acts := [];
      NothingDone(env.step, env.readings, maximum, window);
      if !hasVerifier || maximum < 1 {
        return false, acts;
      }
      var pre := PreState();
      BoundNow(env.Now());
      if !pre {
        retained := true;
        return false, acts;
      }
      PreIsNotPromoted(env.Now(), stage, target, identity, parents);
      ghost var first := env.readings;
      ghost var base := env.step;
      BoundNow(env.Now());
      ok, acts := Attempts(maximum, window);
      if ok {
        OwnedIsUnambiguous(first, window, acts, env.Now());
      }
      BoundNow(env.Now());
      DisciplineIs(base, first, maximum, window, acts);
      AmbiguousIs(first, window, acts, env.Now());
      ExhaustedIs(base, first, maximum, window, acts, env.Now());
    }

    /** Cleanup of a stage that was not promoted; a removal happens only while the stage is the bound directory. */
    method Cleanup() returns (ok: bool)
      requires env.Valid()
      modifies env`step, env`trace
      ensures env.Valid()
      ensures env.trace == old(env.trace) + if !retained && !promoted && old(Pre()) then [RemoveAll] else []
      ensures retained ==> !ok
      ensures promoted && !retained ==> (ok <==> env.Now()(stage) == Absent)
      ensures !promoted && !retained ==> (ok <==> old(Pre()) && env.removeOk(old(env.step)))
    {
      if retained {
        return false;
      }
      if promoted {
        return env.Now()(stage) == Absent;
      }
      var pre := PreState();
      if !pre {
        return false;
      }
      ok := env.DoRemoveAll();
    }

    // -------------------------------------------------------------- runs without another writer

    /** Nobody else writes: an act leaves the world as it was, and a successful rename moves the stage. */
    ghost predicate Quiet(base: nat, acts: seq<Act>) {
      forall k :: 0 <= k < |acts| ==> QuietAct(base + k, acts[k])
    }

    ghost predicate QuietAct(step: nat, a: Act) {
      if a.Rename? && a.ok then Promoted(env.worlds(step + 1), stage, target, identity, parents)
      else env.worlds(step + 1) == env.worlds(step)
    }

    /**
     What a run leaves when nobody else writes and the content still verifies: the promoted directory after a
     successful rename, and otherwise the prestate, in which the run retains nothing and Cleanup removes the stage.
     */
    lemma QuietRunIsDecided(base: nat, first: nat, maximum: int, window: int, acts: seq<Act>)
      requires acts != [] && Disciplined(base, first, maximum, window, acts) && Quiet(base, acts)
      requires acts[|acts| - 1] != Verify(false)
      ensures !Ambiguous(first, window, acts, env.worlds(base + |acts|))
      ensures if EndsRenamed(acts) then Promoted(env.worlds(base + |acts|), stage, target, identity, parents)
              else PreHolds(env.worlds(base + |acts|), stage, target, identity, parents)
    {
      hide PreHolds, Promoted;
      var k := |acts| - 1;
      assert QuietAct(base + k, acts[k]);
      assert PreAt(env.worlds, base, k, stage, target, identity, parents);
    }
  }

  // ---------------------------------------------------------------- binding

  /** The bound ancestors, nearest first, up to the root. */
  function Ancestors(p: Path): (r: seq<Path>)
    ensures |r| == |p| + 1 && forall i :: 0 <= i < |r| ==> r[i] == p[..|p| - i]
    decreases |p|
  {
    if p == [] then [[]] else [p] + Ancestors(Dir(p))
  }

  /** bindStageRename: binds the identities it will insist on, in a prestate that holds. */
  method BindStageRename(stage: Path, target: Path, env: Environment) returns (bound: StageRename?)
    requires stage != [] && target != [] && env.Valid()
    ensures bound != null <==>
              && stage != target && stage[..|stage| - 1] == target[..|target| - 1]
              && (forall n :: 0 <= n < |stage| ==> env.Now()(stage[..n]).RealDir?)
              && env.Now()(stage).RealDir? && env.Now()(target) == Absent
    ensures bound != null ==>
              && fresh(bound) && bound.env == env && bound.stage == stage && bound.target == target
              && !bound.retained && !bound.promoted && bound.Bound(env.Now())
              && |bound.parents| == |stage|
              && forall i :: 0 <= i < |bound.parents| ==> bound.parents[i].path == stage[..|stage| - 1 - i]
  {
    if stage == target || Dir(stage) != Dir(target) {
      return null;
    }
    var chain := Ancestors(Dir(stage));
    forall n | 0 <= n < |stage| ensures chain[|stage| - 1 - n] == stage[..n] {
    }
    var parents: seq<Parent> := [];
    var i := 0;
    while i < |chain|
      invariant 0 <= i <= |chain| && |parents| == i
      invariant forall k :: 0 <= k < i ==> parents[k].path == chain[k] && env.Now()(chain[k]) == RealDir(parents[k].id)
    {
      assert chain[i] == stage[..|stage| - 1 - i];
      var probe := env.Now()(chain[i]);
      if !probe.RealDir? {
        return null;
      }
      parents := parents + [Parent(chain[i], probe.id)];
      i := i + 1;
    }
    var own := env.Now()(stage);
    if !own.RealDir? {
      return null;
    }
    bound := new StageRename(stage, target, own.id, parents, env);
    var pre := bound.PreState();
    if !pre {
      return null;
    }
  }
}
