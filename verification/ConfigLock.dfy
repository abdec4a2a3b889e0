/**
 Any number of programs that rewrite the config file under one lock, and an editor that does not take it
 (daemon/config/file.go). A step is one call to the file system by one of them; every interleaving is a run.
 */
module ConfigLock {
  import opened Bytes
  import U = ConfigUpdate

  /** Where a program is: outside, about to read for the kth time, thinking about what it read, or about to rename. */
  datatype Stage =
    | Outside
    | Reading(attempt: nat)
    | Thinking(attempt: nat, given: U.Contents)
    | Renaming(given: U.Contents)

  /** A change of the file: by a program, with the contents it worked from, or by the editor. */
  datatype Change =
    | Written(program: nat, given: U.Contents, before: U.FileState, after: U.FileState)
    | Saved(before: U.FileState, after: U.FileState)

  datatype State = State(file: U.FileState, lock: Option<nat>, stages: map<nat, Stage>, log: seq<Change>)

  datatype Step =
    | Acquire(program: nat)
    | Read(program: nat)
    | LookAgain(program: nat)
    | Rename(program: nat)
    | Release(program: nat)
    | Save(file: U.FileState)

  function StageOf(s: State, program: nat): Stage {
    if program in s.stages then s.stages[program] else Outside
  }

  /** Only the lock itself is asked about the lock: what it keeps apart is proved. */
  predicate Enabled(s: State, st: Step, fns: nat -> U.Contents -> U.FnResult) {
    match st
    case Acquire(i) => s.lock.None? && StageOf(s, i).Outside?
    case Read(i) => StageOf(s, i).Reading? && StageOf(s, i).attempt < U.MaxAttempts
    case LookAgain(i) => StageOf(s, i).Thinking? && fns(i)(StageOf(s, i).given).Next?
    case Rename(i) => StageOf(s, i).Renaming? && fns(i)(StageOf(s, i).given).Next?
    case Release(i) => !StageOf(s, i).Outside?
    case Save(_) => true
  }

  function Do(s: State, st: Step, fns: nat -> U.Contents -> U.FnResult): State
    requires Enabled(s, st, fns)
  {
    match st
    case Acquire(i) => s.(lock := Some(i), stages := s.stages[i := Reading(0)])
    case Read(i) => s.(stages := s.stages[i := Thinking(StageOf(s, i).attempt, U.Held(s.file))])
    case LookAgain(i) =>
      var given := StageOf(s, i).given;
      s.(stages := s.stages[i := if U.Held(s.file) == given then Renaming(given)
                                 else Reading(StageOf(s, i).attempt + 1)])
    case Rename(i) =>
      var given := StageOf(s, i).given;
      var next := Some(fns(i)(given).contents);
      s.(file := next, stages := s.stages[i := Reading(U.MaxAttempts)],
         log := s.log + [Written(i, given, s.file, next)])
    case Release(i) => s.(lock := None, stages := s.stages[i := Outside])
    case Save(file) => s.(file := file, log := s.log + [Saved(s.file, file)])
  }

  predicate Legal(s: State, steps: seq<Step>, fns: nat -> U.Contents -> U.FnResult)
    decreases |steps|
  {
    steps == [] || (Enabled(s, steps[0], fns) && Legal(Do(s, steps[0], fns), steps[1..], fns))
  }

  function Run(s: State, steps: seq<Step>, fns: nat -> U.Contents -> U.FnResult): State
    requires Legal(s, steps, fns)
    decreases |steps|
  {
    if steps == [] then s else Run(Do(s, steps[0], fns), steps[1..], fns)
  }

  function Before(file: U.FileState): State {
    State(file, None, map[], [])
  }

  /** The file as the first n changes of the log left it. */
  function FileAt(first: U.FileState, log: seq<Change>, n: nat): U.FileState
    requires n <= |log|
  {
    if n == 0 then first else log[n - 1].after
  }

  /**
   A write starts from what the change before it left, and unless that was a save, from what the program was given.
   */
  ghost predicate WriteIsFresh(
    first: U.FileState, log: seq<Change>, n: nat, fns: nat -> U.Contents -> U.FnResult)
    requires n < |log|
  {
    && log[n].before == FileAt(first, log, n)
    && (log[n].Written? ==>
          && fns(log[n].program)(log[n].given) == U.Next(U.Held(log[n].after))
          && (U.Held(log[n].before) == log[n].given || (n > 0 && log[n - 1].Saved?)))
  }

  ghost predicate Inv(first: U.FileState, s: State, fns: nat -> U.Contents -> U.FnResult) {
    && (forall i: nat :: !StageOf(s, i).Outside? ==> s.lock == Some(i))
    && s.file == FileAt(first, s.log, |s.log|)
    && (forall i: nat :: StageOf(s, i).Renaming? ==>
          U.Held(s.file) == StageOf(s, i).given || (s.log != [] && s.log[|s.log| - 1].Saved?))
    && forall n :: 0 <= n < |s.log| ==> WriteIsFresh(first, s.log, n, fns)
  }

  lemma LogGrows(first: U.FileState, log: seq<Change>, c: Change, fns: nat -> U.Contents -> U.FnResult)
    requires forall n :: 0 <= n < |log| ==> WriteIsFresh(first, log, n, fns)
    requires c.before == FileAt(first, log, |log|)
    requires c.Written? ==>
               && fns(c.program)(c.given) == U.Next(U.Held(c.after))
               && (U.Held(c.before) == c.given || (log != [] && log[|log| - 1].Saved?))
    ensures forall n :: 0 <= n <= |log| ==> WriteIsFresh(first, log + [c], n, fns)
  {
    forall n | 0 <= n < |log|
      ensures WriteIsFresh(first, log + [c], n, fns)
    {
      assert WriteIsFresh(first, log, n, fns);
    }
  }

  lemma StepKeeps(first: U.FileState, s: State, st: Step, fns: nat -> U.Contents -> U.FnResult)
    requires Inv(first, s, fns) && Enabled(s, st, fns)
    ensures Inv(first, Do(s, st, fns), fns)
  {
    hide WriteIsFresh;
    var v := Do(s, st, fns);
    assert forall j: nat :: st.Save? || j != st.program ==> StageOf(v, j) == StageOf(s, j);
    match st
    case Rename(i) =>
      var given := StageOf(s, i).given;
      LogGrows(first, s.log, Written(i, given, s.file, Some(fns(i)(given).contents)), fns);
    case Save(file) =>
      LogGrows(first, s.log, Saved(s.file, file), fns);
    case _ =>
  }

  lemma {:induction false} RunKeeps(
    first: U.FileState, s: State, steps: seq<Step>, fns: nat -> U.Contents -> U.FnResult)
    requires Inv(first, s, fns) && Legal(s, steps, fns)
    ensures Inv(first, Run(s, steps, fns), fns)
    decreases |steps|
  {
    hide Inv, Do;
    if steps != [] {
      StepKeeps(first, s, steps[0], fns);
      RunKeeps(first, Do(s, steps[0], fns), steps[1..], fns);
    }
  }

  /**
   However the programs' steps interleave, no program overwrites another's change without having seen it: what a program
   writes directly after another has written is made of exactly what that one left. Only the editor's saves, which the
   lock does not stop, can come in between.
   */
  lemma LockedWritesCompose(
    file: U.FileState, steps: seq<Step>, fns: nat -> U.Contents -> U.FnResult, n: nat)
    requires Legal(Before(file), steps, fns) && n < |Run(Before(file), steps, fns).log|
    requires Run(Before(file), steps, fns).log[n].Written?
    ensures var log := Run(Before(file), steps, fns).log;
            var held := U.Held(FileAt(file, log, n));
            && fns(log[n].program)(log[n].given) == U.Next(U.Held(log[n].after))
            && (n == 0 || log[n - 1].Written? ==> log[n].given == held)
  {
    hide Legal, Run;
    RunKeeps(file, Before(file), steps, fns);
    assert WriteIsFresh(file, Run(Before(file), steps, fns).log, n, fns);
  }
}
