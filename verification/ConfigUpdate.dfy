/**
 Rewriting the config file while an editor, which takes no lock, may save it at any moment (daemon/config/file.go).
 */
module ConfigUpdate {
  import opened Bytes

  type Contents = seq<byte>

  /** A file that is missing is read as no bytes. */
  type FileState = Option<Contents>

  function Held(f: FileState): Contents {
    if f.Some? then f.value else []
  }

  const MaxAttempts := 4

  datatype Who = Editor | Norite

  /** One change of the file: who made it, and what the file was and became. */
  datatype Change = Change(who: Who, before: FileState, after: FileState)

  datatype FnResult = Next(contents: Contents) | Refused

  /**
   What happens around one attempt: the saves an editor makes after the file was read and before it is read again, the
   ones it makes between that and the rename, and which of the calls fail.
   */
  datatype Turn = Turn(
    thinking: seq<FileState>,
    gap: seq<FileState>,
    readable: bool,
    prepares: bool,
    readsAgain: bool,
    renames: bool)

  datatype Outcome = Updated | Unchanged | FnRefused | TooLarge | ReadFailed | WriteFailed | KeepsChanging

  // ---------- the editor ----------

  function Saved(f: FileState, saves: seq<FileState>): FileState {
    if saves == [] then f else saves[|saves| - 1]
  }

  function SaveLog(f: FileState, saves: seq<FileState>): seq<Change>
    decreases |saves|
  {
    if saves == [] then [] else [Change(Editor, f, saves[0])] + SaveLog(saves[0], saves[1..])
  }

  // ---------- one attempt, and all of them ----------

  /** What an attempt leaves, the changes made meanwhile, and the answer, unless it is to try again. */
  datatype Attempted = Attempted(file: FileState, log: seq<Change>, outcome: Option<Outcome>)

  function Attempt(f: FileState, max: nat, fn: Contents -> FnResult, t: Turn): Attempted {
    var next := fn(Held(f));
    if !t.readable then Attempted(f, [], Some(ReadFailed))
    else if |Held(f)| > max then Attempted(f, [], Some(TooLarge))
    else if next.Refused? then Attempted(f, [], Some(FnRefused))
    else if next.contents == Held(f) then Attempted(f, [], Some(Unchanged))
    else if |next.contents| > max then Attempted(f, [], Some(TooLarge))
    else if !t.prepares then Attempted(f, [], Some(WriteFailed))
    else
      var again := Saved(f, t.thinking);
      var saves := SaveLog(f, t.thinking);
      if !t.readsAgain then Attempted(again, saves, Some(ReadFailed))
      else if |Held(again)| > max then Attempted(again, saves, Some(TooLarge))
      else if Held(again) != Held(f) then Attempted(again, saves, None)
      else
        var there := Saved(again, t.gap);
        var all := saves + SaveLog(again, t.gap);
        if !t.renames then Attempted(there, all, Some(WriteFailed))
        else Attempted(Some(next.contents), all + [Change(Norite, there, Some(next.contents))], Some(Updated))
  }

  function Attempts(f: FileState, max: nat, fn: Contents -> FnResult, turns: nat -> Turn, k: nat): Attempted
    decreases MaxAttempts - k
  {
    if k >= MaxAttempts then Attempted(f, [], Some(KeepsChanging))
    else
      var a := Attempt(f, max, fn, turns(k));
      if a.outcome.Some? then a
      else
        var rest := Attempts(a.file, max, fn, turns, k + 1);
        rest.(log := a.log + rest.log)
  }

  class ConfigFile {
    var file: FileState
    ghost var log: seq<Change>

    constructor (file: FileState)
      ensures this.file == file && log == []
    {
      this.file := file;
      log := [];
    }

    /** The editor's doing. */
    method EditorSaves(saves: seq<FileState>)
      modifies this
      ensures file == Saved(old(file), saves)
      ensures log == old(log) + SaveLog(old(file), saves)
    {
      SaveLogEnds(file, saves);
      log := log + SaveLog(file, saves);
      file := Saved(file, saves);
    }

    method Rename(contents: Contents)
      modifies this
      ensures file == Some(contents)
      ensures log == old(log) + [Change(Norite, old(file), Some(contents))]
    {
      log := log + [Change(Norite, file, Some(contents))];
      file := Some(contents);
    }

    method Snapshot(max: nat, readable: bool) returns (error: Option<Outcome>, current: Contents)
      ensures error == if !readable then Some(ReadFailed) else if |Held(file)| > max then Some(TooLarge) else None
      ensures error.None? ==> current == Held(file)
    {
      current := Held(file);
      error := if !readable then Some(ReadFailed) else if |current| > max then Some(TooLarge) else None;
    }

    /** One turn of the loop: None is to try again. */
    method TryOnce(max: nat, fn: Contents -> FnResult, t: Turn) returns (outcome: Option<Outcome>)
      modifies this
      ensures var a := Attempt(old(file), max, fn, t);
              file == a.file && log == old(log) + a.log && outcome == a.outcome
    {
      var error, current := Snapshot(max, t.readable);
      if error.Some? {
        return error;
      }
      var next := fn(current);
      if next.Refused? {
        return Some(FnRefused);
      }
      if next.contents == current {
        return Some(Unchanged);
      }
      if |next.contents| > max {
        return Some(TooLarge);
      }
      if !t.prepares {
        return Some(WriteFailed);
      }
      EditorSaves(t.thinking);
      var now: Contents;
      error, now := Snapshot(max, t.readsAgain);
      if error.Some? {
        return error;
      }
      if now != current {
        return None;
      }
      EditorSaves(t.gap);
      if !t.renames {
        return Some(WriteFailed);
      }
      Rename(next.contents);
      return Some(Updated);
    }

    method Update(max: nat, fn: Contents -> FnResult, turns: nat -> Turn) returns (outcome: Outcome)
      modifies this
      ensures var a := Attempts(old(file), max, fn, turns, 0);
              file == a.file && log == old(log) + a.log && Some(outcome) == a.outcome
    {
      hide Attempt, Attempts, Held, Saved, SaveLog;
      ghost var first := file;
      ghost var done: seq<Change> := [];
      for k := 0 to MaxAttempts
        invariant log == old(log) + done
        invariant var a := Attempts(first, max, fn, turns, 0);
                  var b := Attempts(file, max, fn, turns, k);
                  a.file == b.file && a.log == done + b.log && a.outcome == b.outcome
      {
        ghost var a := Attempt(file, max, fn, turns(k));
        FirstThenRest(file, max, fn, turns, k);
        var answer := TryOnce(max, fn, turns(k));
        Regrouped(old(log), done, a.log);
        if answer.Some? {
          return answer.value;
        }
        Regrouped(done, a.log, Attempts(file, max, fn, turns, k + 1).log);
        done := done + a.log;
      }
      FirstThenRest(file, max, fn, turns, MaxAttempts);
      return KeepsChanging;
    }
  }

  lemma Regrouped(a: seq<Change>, b: seq<Change>, c: seq<Change>)
    ensures a + b + c == a + (b + c)
  {
  }

  lemma FirstThenRest(f: FileState, max: nat, fn: Contents -> FnResult, turns: nat -> Turn, k: nat)
    ensures k >= MaxAttempts ==> Attempts(f, max, fn, turns, k) == Attempted(f, [], Some(KeepsChanging))
    ensures k < MaxAttempts ==>
      var a, all := Attempt(f, max, fn, turns(k)), Attempts(f, max, fn, turns, k);
      if a.outcome.Some? then all == a
      else
        var rest := Attempts(a.file, max, fn, turns, k + 1);
        all.file == rest.file && all.log == a.log + rest.log && all.outcome == rest.outcome
  {
  }

  // ---------- what is proved ----------

  /** Each change starts from what the one before it left, from the file as it was to the file as it is. */
  ghost predicate Chained(f: FileState, log: seq<Change>, g: FileState)
    decreases |log|
  {
    if log == [] then f == g else log[0].before == f && Chained(log[0].after, log[1..], g)
  }

  lemma {:induction false} ChainedConcat(f: FileState, a: seq<Change>, g: FileState, b: seq<Change>, h: FileState)
    requires Chained(f, a, g) && Chained(g, b, h)
    ensures Chained(f, a + b, h)
    decreases |a|
  {
    if a == [] {
      assert a + b == b;
    } else {
      assert (a + b)[1..] == a[1..] + b;
      ChainedConcat(a[0].after, a[1..], g, b, h);
    }
  }

  lemma {:induction false} SaveLogEnds(f: FileState, saves: seq<FileState>)
    ensures Chained(f, SaveLog(f, saves), Saved(f, saves))
    ensures forall c :: c in SaveLog(f, saves) ==> c.who.Editor?
    decreases |saves|
  {
    if saves != [] {
      SaveLogEnds(saves[0], saves[1..]);
    }
  }

  ghost predicate NoNorite(log: seq<Change>) {
    forall c :: c in log ==> c.who.Editor?
  }

  /**
   An attempt's own change, if it makes one, is the last, and takes the file from what is there to what fn made of
   what was read just before.
   */
  ghost predicate OnlyTheLast(log: seq<Change>, wrote: bool) {
    if wrote then log != [] && log[|log| - 1].who.Norite? && NoNorite(log[..|log| - 1]) else NoNorite(log)
  }

  lemma AttemptKeeps(f: FileState, max: nat, fn: Contents -> FnResult, t: Turn)
    ensures var a := Attempt(f, max, fn, t);
            && Chained(f, a.log, a.file)
            && OnlyTheLast(a.log, a.outcome == Some(Updated))
  {
    hide Chained;
    assert Chained(f, [], f) by { ChainedNone(f); }
    SaveLogEnds(f, t.thinking);
    var again := Saved(f, t.thinking);
    SaveLogEnds(again, t.gap);
    var there := Saved(again, t.gap);
    ChainedConcat(f, SaveLog(f, t.thinking), again, SaveLog(again, t.gap), there);
    if fn(Held(f)).Next? {
      var last := Change(Norite, there, Some(fn(Held(f)).contents));
      ChainedOne(last);
      ChainedConcat(f, SaveLog(f, t.thinking) + SaveLog(again, t.gap), there, [last], last.after);
    }
  }

  lemma ChainedNone(f: FileState)
    ensures Chained(f, [], f)
  {
  }

  lemma ChainedOne(c: Change)
    ensures Chained(c.before, [c], c.after)
  {
    assert [c][1..] == [];
  }

  /**
   Nothing else is behind the file's contents than the changes in the log, Update makes one at the most, and it makes
   none at all unless it says it did: an answer that the file keeps changing means nothing was written.
   */
  lemma {:induction false} WritesOnceOrNever(
    f: FileState, max: nat, fn: Contents -> FnResult, turns: nat -> Turn, k: nat)
    ensures var a := Attempts(f, max, fn, turns, k);
            && a.outcome.Some?
            && Chained(f, a.log, a.file)
            && OnlyTheLast(a.log, a.outcome == Some(Updated))
    decreases MaxAttempts - k
  {
    hide Chained, Attempt;
    if k < MaxAttempts {
      AttemptKeeps(f, max, fn, turns(k));
      var a := Attempt(f, max, fn, turns(k));
      if a.outcome.None? {
        WritesOnceOrNever(a.file, max, fn, turns, k + 1);
        var rest := Attempts(a.file, max, fn, turns, k + 1);
        ChainedConcat(f, a.log, a.file, rest.log, rest.file);
        if rest.outcome == Some(Updated) {
          var all := a.log + rest.log;
          assert all[..|all| - 1] == a.log + rest.log[..|rest.log| - 1];
        }
      }
    } else {
      ChainedNone(f);
    }
  }

  /** No save lands between the second look at the file and the rename. */
  predicate NoGap(turns: nat -> Turn) {
    forall k :: 0 <= k < MaxAttempts ==> turns(k).gap == []
  }

  /**
   The last change takes the file from the contents that are there to what fn makes of those, which are others, of an
   allowed size, and what the file then holds.
   */
  predicate NothingLost(a: Attempted, max: nat, fn: Contents -> FnResult) {
    a.log != [] &&
    var change := a.log[|a.log| - 1];
    && change.who.Norite?
    && change.after == a.file == Some(Held(a.file))
    && fn(Held(change.before)) == Next(Held(change.after))
    && |Held(change.after)| <= max
    && Held(change.after) != Held(change.before)
  }

  /** The attempt that writes, and the file as that attempt read it. */
  function Writing(
    f: FileState, max: nat, fn: Contents -> FnResult, turns: nat -> Turn, k: nat): Option<(nat, FileState)>
    decreases MaxAttempts - k
  {
    if k >= MaxAttempts then None
    else
      var a := Attempt(f, max, fn, turns(k));
      if a.outcome == Some(Updated) then Some((k, f))
      else if a.outcome.None? then Writing(a.file, max, fn, turns, k + 1)
      else None
  }

  /** What the gap of an attempt leaves of the contents found at the second look: the same, whoever saved them. */
  predicate GapIsQuiet(f: FileState, t: Turn) {
    Held(Saved(Saved(f, t.thinking), t.gap)) == Held(Saved(f, t.thinking))
  }

  /** The last change is a write of what fn makes of given, over what the gap left. */
  predicate WroteFrom(a: Attempted, max: nat, fn: Contents -> FnResult, given: FileState, t: Turn) {
    a.log != [] &&
    var change := a.log[|a.log| - 1];
    && change.who.Norite? && change.after == a.file == Some(Held(a.file))
    && fn(Held(given)) == Next(Held(a.file))
    && (Held(change.before) == Held(given) <==> GapIsQuiet(given, t))
    && (GapIsQuiet(given, t) ==> NothingLost(a, max, fn))
  }

  lemma AttemptWrites(f: FileState, max: nat, fn: Contents -> FnResult, t: Turn)
    requires Attempt(f, max, fn, t).outcome == Some(Updated)
    ensures WroteFrom(Attempt(f, max, fn, t), max, fn, f, t)
  {
  }

  /**
   For every schedule of an editor's saves: the change that Update makes starts from the contents that fn was given if
   and only if the gap of the attempt that writes, between its second look and the rename, leaves the contents as they
   were. Then no edit is lost, since all that was saved before is in what fn was given; otherwise what was saved in the
   gap is overwritten, and fn never saw it.
   */
  lemma {:induction false} NoLostEditIff(
    f: FileState, max: nat, fn: Contents -> FnResult, turns: nat -> Turn, k: nat)
    requires Attempts(f, max, fn, turns, k).outcome == Some(Updated)
    ensures var w := Writing(f, max, fn, turns, k);
            w.Some? && WroteFrom(Attempts(f, max, fn, turns, k), max, fn, w.value.1, turns(w.value.0))
    decreases MaxAttempts - k
  {
    if k < MaxAttempts {
      hide Attempt, Attempts, WroteFrom;
      FirstThenRest(f, max, fn, turns, k);
      var a := Attempt(f, max, fn, turns(k));
      if a.outcome == Some(Updated) {
        AttemptWrites(f, max, fn, turns(k));
      } else if a.outcome.None? {
        var rest := Attempts(a.file, max, fn, turns, k + 1);
        NoLostEditIff(a.file, max, fn, turns, k + 1);
        var w := Writing(a.file, max, fn, turns, k + 1).value;
        OfTheRest(Attempts(f, max, fn, turns, k), a.log, rest, max, fn, w.1, turns(w.0));
      }
    }
  }

  lemma OfTheRest(
    all: Attempted, log: seq<Change>, rest: Attempted, max: nat, fn: Contents -> FnResult, given: FileState, t: Turn)
    requires all.file == rest.file && all.log == log + rest.log && WroteFrom(rest, max, fn, given, t)
    ensures WroteFrom(all, max, fn, given, t)
  {
    hide GapIsQuiet;
  }

  /** With the second look and the rename taken as one step there is no gap, so no edit is ever lost. */
  lemma NoLostEdit(f: FileState, max: nat, fn: Contents -> FnResult, turns: nat -> Turn, k: nat)
    requires NoGap(turns) && Attempts(f, max, fn, turns, k).outcome == Some(Updated)
    ensures NothingLost(Attempts(f, max, fn, turns, k), max, fn)
  {
    hide Attempts, NothingLost;
    NoLostEditIff(f, max, fn, turns, k);
    WritingIsAnAttempt(f, max, fn, turns, k);
  }

  lemma {:induction false} WritingIsAnAttempt(
    f: FileState, max: nat, fn: Contents -> FnResult, turns: nat -> Turn, k: nat)
    ensures Writing(f, max, fn, turns, k).Some? ==> k <= Writing(f, max, fn, turns, k).value.0 < MaxAttempts
    decreases MaxAttempts - k
  {
    hide Attempt;
    if k < MaxAttempts {
      WritingIsAnAttempt(Attempt(f, max, fn, turns(k)).file, max, fn, turns, k + 1);
    }
  }

  /** The other case happens: one save, in the gap of the first attempt. */
  lemma SaveInTheGapIsLost(f: FileState, max: nat, fn: Contents -> FnResult, saved: Contents)
    requires |Held(f)| <= max && fn(Held(f)).Next? && |fn(Held(f)).contents| <= max
    requires fn(Held(f)).contents != Held(f)
    ensures var turns := (k: nat) => Turn([], [Some(saved)], true, true, true, true);
            var a := Attempts(f, max, fn, turns, 0);
            && a.outcome == Some(Updated)
            && a.file == Some(fn(Held(f)).contents)
            && a.log == [Change(Editor, f, Some(saved)), Change(Norite, Some(saved), a.file)]
            && (GapIsQuiet(f, turns(0)) <==> saved == Held(f))
  {
    var t := Turn([], [Some(saved)], true, true, true, true);
    assert SaveLog(f, t.gap) == [Change(Editor, f, Some(saved))] by {
      assert t.gap[1..] == [];
    }
    assert Attempt(f, max, fn, t).outcome == Some(Updated);
  }

  // ---------- exactly when it gives up ----------

  /** What the editor's saves during the first k attempts leave, when Update has written nothing. */
  function Left(f: FileState, turns: nat -> Turn, k: nat): FileState {
    if k == 0 then f else Saved(Left(f, turns, k - 1), turns(k - 1).thinking)
  }

  /** An attempt gets as far as its second look, and finds other contents. */
  predicate FindsOthers(f: FileState, max: nat, fn: Contents -> FnResult, t: Turn) {
    && t.readable && |Held(f)| <= max
    && fn(Held(f)).Next? && fn(Held(f)).contents != Held(f) && |fn(Held(f)).contents| <= max
    && t.prepares && t.readsAgain
    && |Held(Saved(f, t.thinking))| <= max && Held(Saved(f, t.thinking)) != Held(f)
  }

  predicate FirstToEnd(f: FileState, max: nat, fn: Contents -> FnResult, turns: nat -> Turn, k: nat, j: nat) {
    && !FindsOthers(Left(f, turns, j), max, fn, turns(j))
    && forall i: nat :: k <= i < j ==> FindsOthers(Left(f, turns, i), max, fn, turns(i))
  }

  lemma TriesAgainIff(f: FileState, max: nat, fn: Contents -> FnResult, turns: nat -> Turn, k: nat)
    ensures var a := Attempt(Left(f, turns, k), max, fn, turns(k));
            && (a.outcome.None? <==> FindsOthers(Left(f, turns, k), max, fn, turns(k)))
            && (a.outcome.None? ==> a.file == Left(f, turns, k + 1))
            && a.outcome != Some(KeepsChanging)
  {
    assert Left(f, turns, k + 1) == Saved(Left(f, turns, k), turns(k).thinking);
  }

  /**
   It gives up if and only if every one of the attempts gets as far as its second look and finds other contents there,
   and the file is then as the editor left it. Otherwise the first attempt that does not decides, by its own answer.
   */
  lemma {:induction false} GivesUpIff(
    f: FileState, max: nat, fn: Contents -> FnResult, turns: nat -> Turn, k: nat)
    requires k <= MaxAttempts
    ensures var a := Attempts(Left(f, turns, k), max, fn, turns, k);
            && (a.outcome == Some(KeepsChanging) <==>
                  forall j: nat :: k <= j < MaxAttempts ==> FindsOthers(Left(f, turns, j), max, fn, turns(j)))
            && (a.outcome == Some(KeepsChanging) ==> a.file == Left(f, turns, MaxAttempts))
            && forall j: nat :: k <= j < MaxAttempts && FirstToEnd(f, max, fn, turns, k, j) ==>
                 var own := Attempt(Left(f, turns, j), max, fn, turns(j));
                 a.outcome == own.outcome && a.file == own.file
    decreases MaxAttempts - k
  {
    hide Attempt, Left, FindsOthers, Attempts;
    FirstThenRest(Left(f, turns, k), max, fn, turns, k);
    if k < MaxAttempts {
      TriesAgainIff(f, max, fn, turns, k);
      if FindsOthers(Left(f, turns, k), max, fn, turns(k)) {
        GivesUpIff(f, max, fn, turns, k + 1);
        forall j: nat | k <= j < MaxAttempts && FirstToEnd(f, max, fn, turns, k, j)
          ensures k < j && FirstToEnd(f, max, fn, turns, k + 1, j)
        {
        }
      }
    }
  }


  // ---------- what an answer means ----------

  /** What an answer says of the file as it is left, but for the calls that failed. */
  ghost predicate Says(a: Attempted, max: nat, fn: Contents -> FnResult) {
    && (a.outcome == Some(FnRefused) ==> fn(Held(a.file)).Refused? && |Held(a.file)| <= max)
    && (a.outcome == Some(Unchanged) ==> fn(Held(a.file)) == Next(Held(a.file)) && |Held(a.file)| <= max)
    && (a.outcome == Some(TooLarge) ==>
          || |Held(a.file)| > max
          || (fn(Held(a.file)).Next? && |fn(Held(a.file)).contents| > max))
  }

  lemma AttemptSays(f: FileState, max: nat, fn: Contents -> FnResult, t: Turn)
    ensures var a := Attempt(f, max, fn, t);
            && Says(a, max, fn)
            && a.outcome != Some(KeepsChanging)
            && (a.outcome == Some(ReadFailed) ==> !t.readable || !t.readsAgain)
            && (a.outcome == Some(WriteFailed) ==> !t.prepares || !t.renames)
            && (a.outcome.None? ==> t.thinking != [])
  {
    hide SaveLog;
  }

  /**
   What each answer means: fn refuses the file as it is left, or asks for nothing else; it, or what fn makes of it, is
   too large; a call failed; or it was saved during every attempt.
   */
  lemma {:induction false} AnswerMeans(
    f: FileState, max: nat, fn: Contents -> FnResult, turns: nat -> Turn, k: nat)
    requires k <= MaxAttempts
    ensures var a := Attempts(f, max, fn, turns, k);
            && Says(a, max, fn)
            && (a.outcome == Some(ReadFailed) ==>
                  exists j: nat :: k <= j < MaxAttempts && (!turns(j).readable || !turns(j).readsAgain))
            && (a.outcome == Some(WriteFailed) ==>
                  exists j: nat :: k <= j < MaxAttempts && (!turns(j).prepares || !turns(j).renames))
            && (a.outcome == Some(KeepsChanging) ==>
                  forall j: nat :: k <= j < MaxAttempts ==> turns(j).thinking != [])
    decreases MaxAttempts - k
  {
    hide Attempt, Attempts, Says, Held;
    FirstThenRest(f, max, fn, turns, k);
    if k < MaxAttempts {
      AttemptSays(f, max, fn, turns(k));
      var a := Attempt(f, max, fn, turns(k));
      if a.outcome.None? {
        AnswerMeans(a.file, max, fn, turns, k + 1);
        SaysOfTheFile(Attempts(f, max, fn, turns, k), Attempts(a.file, max, fn, turns, k + 1), max, fn);
      }
    } else {
      SaysNothing(f, max, fn);
    }
  }

  lemma SaysOfTheFile(a: Attempted, b: Attempted, max: nat, fn: Contents -> FnResult)
    requires Says(b, max, fn) && a.file == b.file && a.outcome == b.outcome
    ensures Says(a, max, fn)
  {
  }

  lemma SaysNothing(f: FileState, max: nat, fn: Contents -> FnResult)
    ensures Says(Attempted(f, [], Some(KeepsChanging)), max, fn)
  {
  }
}
