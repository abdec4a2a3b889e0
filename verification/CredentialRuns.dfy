/**
 Runs of the credential store: logins, logouts and renewals by processes that each probed for themselves, any of
 which may fail part of the way.
 */
module CredentialRuns {
  import opened Bytes
  import opened Credentials

  /**
   One operation, by a process whose probe chose a backend. A renewal is two: Begin reads the session, and Finish
   swaps its token for the one the instance answered with, however long after. Damage is not an operation of the
   store: something else leaves the record unreadable.
   */
  datatype Op =
    | Login(chosen: Backend, env: Env, record: Record, token: Token)
    | Logout(chosen: Backend, env: Env)
    | Begin(renewal: nat, chosen: Backend, env: Env)
    | Finish(renewal: nat, chosen: Backend, env: Env, token: Token)
    | Damage

  /**
   The machine, the renewals under way with what each read, every token there has been, and the log: what each
   operation answered, the secrets a notice has said may be left behind, and those a logout's error has.
   */
  datatype World = World(
    disk: Disk,
    renewals: map<nat, (Record, Token)>,
    used: set<Token>,
    answers: seq<(Op, Option<Error>)>,
    noticed: set<(Key, Token)>,
    told: set<(Key, Token)>)

  const Empty := World(Disk(Absent, map[]), map[], {}, [], {}, {})

  /** A token is new each time: an instance never issues one twice. */
  predicate Possible(w: World, op: Op) {
    match op
    case Login(_, _, _, token) => token !in w.used
    case Logout(_, _) => true
    case Begin(renewal, _, _) => renewal !in w.renewals
    case Finish(renewal, _, _, token) => renewal in w.renewals && token !in w.used
    case Damage => w.disk.record.Stored?
  }

  function ResultOf(w: World, op: Op, urlOk: string -> bool): Result
    requires Possible(w, op)
  {
    match op
    case Login(chosen, env, record, token) => Save(w.disk, chosen, env, urlOk, record, token)
    case Logout(chosen, env) => Clear(w.disk, chosen, env)
    case Begin(_, chosen, env) => Result(w.disk, Load(w.disk, chosen, env, urlOk).0, [])
    case Finish(renewal, chosen, env, token) =>
      ReplaceToken(w.disk, chosen, env, w.renewals[renewal].0, w.renewals[renewal].1, token)
    case Damage => Result(w.disk.(record := Broken), None, [])
  }

  function SecretsOf(d: Disk): (r: set<(Key, Token)>)
    ensures forall x :: x in r <==> x.0 in d.secrets && d.secrets[x.0] == x.1
  {
    var r := set k | k in d.secrets :: (k, d.secrets[k]);
    assert forall x: (Key, Token) :: x.0 in d.secrets && d.secrets[x.0] == x.1 ==> x == (x.0, d.secrets[x.0]);
    r
  }

  /** The secrets an operation's notices speak of: the one that is named, or all, when a record could not be read. */
  function Noticed(w: World, r: Result): set<(Key, Token)> {
    set x | x in SecretsOf(w.disk) && (LeftBehind(x.0) in r.notices || Unidentified in r.notices)
  }

  /**
   A logout that found a record it could not read says in its error that any secret may remain. No other error does.
   */
  function Told(w: World, op: Op, r: Result): set<(Key, Token)> {
    if op.Logout? && r.error == Some(UnusableRecord) then SecretsOf(w.disk) else {}
  }

  function Do(w: World, op: Op, urlOk: string -> bool): World
    requires Possible(w, op)
  {
    var r := ResultOf(w, op, urlOk);
    World(
      r.disk,
      match op
      case Begin(renewal, chosen, env) =>
        var read := Load(w.disk, chosen, env, urlOk).1;
        if read.Some? then w.renewals[renewal := read.value] else w.renewals
      case Finish(renewal, _, _, _) => w.renewals - {renewal}
      case _ => w.renewals,
      match op
      case Login(_, _, _, token) => w.used + {token}
      case Finish(_, _, _, token) => w.used + {token}
      case _ => w.used,
      w.answers + [(op, r.error)],
      w.noticed + Noticed(w, r),
      w.told + Told(w, op, r))
  }

  predicate Legal(w: World, ops: seq<Op>, urlOk: string -> bool)
    decreases |ops|
  {
    ops == [] || (Possible(w, ops[0]) && Legal(Do(w, ops[0], urlOk), ops[1..], urlOk))
  }

  function Run(w: World, ops: seq<Op>, urlOk: string -> bool): World
    requires Legal(w, ops, urlOk)
    decreases |ops|
  {
    if ops == [] then w else Run(Do(w, ops[0], urlOk), ops[1..], urlOk)
  }

  // ---------- secrets at rest ----------

  /** A record that says where its secret is, as every record a login writes does. */
  predicate Stamped(d: Disk) {
    d.record.Stored? ==> d.record.record.holder.In? && d.record.record.instance != ""
  }

  /** The secret the record names, if there is a record. */
  function NamedBy(d: Disk): set<Key>
    requires Stamped(d)
  {
    if d.record.Stored? then {Key(d.record.record.holder.backend, d.record.record.instance)} else {}
  }

  /** The token of the session there is. */
  function Current(d: Disk): Option<Token>
    requires Stamped(d)
  {
    if d.record.Stored? then
      var k := Key(d.record.record.holder.backend, d.record.record.instance);
      if k in d.secrets then Some(d.secrets[k]) else None
    else None
  }

  ghost predicate Inv(w: World) {
    && Stamped(w.disk)
    && (forall k :: k in w.disk.secrets ==> w.disk.secrets[k] in w.used)
    && (forall n :: n in w.renewals ==> w.renewals[n].1 in w.used)
    && (forall x :: x in w.noticed || x in w.told ==> x.1 in w.used)
  }

  /** The secrets at rest that nobody can know of: not the record's, if it can be read, and never spoken of. */
  function Untold(w: World): set<(Key, Token)>
    requires Stamped(w.disk)
  {
    if w.disk.record.Broken? then {}
    else set x | x in SecretsOf(w.disk) && x.0 !in NamedBy(w.disk) && x !in w.noticed && x !in w.told
  }

  lemma StepKeeps(w: World, op: Op, urlOk: string -> bool)
    requires Inv(w) && Possible(w, op)
    ensures Inv(Do(w, op, urlOk))
  {
    hide Noticed, Told, SecretsOf;
    SaidIsUsed(w, op, ResultOf(w, op, urlOk));
  }

  lemma SaidIsUsed(w: World, op: Op, r: Result)
    requires Inv(w)
    ensures forall x :: x in Noticed(w, r) || x in Told(w, op, r) ==> x.1 in w.used
  {
  }

  lemma {:induction false} RunKeeps(w: World, ops: seq<Op>, urlOk: string -> bool)
    requires Inv(w) && Legal(w, ops, urlOk)
    ensures Inv(Run(w, ops, urlOk))
    decreases |ops|
  {
    hide Inv, Do;
    if ops != [] {
      StepKeeps(w, ops[0], urlOk);
      RunKeeps(Do(w, ops[0], urlOk), ops[1..], urlOk);
    }
  }

  /** A login that stored its secret and then could not write the record, which names another secret or none. */
  predicate Strays(w: World, op: Op, urlOk: string -> bool)
    requires Stamped(w.disk) && Possible(w, op)
  {
    && op.Login? && Usable(op.record, urlOk) && op.token != "" && op.env.locks
    && RemoveSuperseded(w.disk, op.chosen, op.env, Key(op.chosen, op.record.instance)).error.None?
    && op.chosen in op.env.canSet && !op.env.writesRecord
    && !w.disk.record.Broken? && Key(op.chosen, op.record.instance) !in NamedBy(w.disk)
  }

  /**
   A step leaves a secret at rest that nobody was told of if and only if it is such a login, and then it is that
   login's own: its error says that the record could not be saved, and not that a secret was.
   */
  lemma StepStraysIff(w: World, op: Op, urlOk: string -> bool)
    requires Inv(w) && Possible(w, op)
    ensures var v := Do(w, op, urlOk);
            && Stamped(v.disk)
            && (Untold(v) <= Untold(w) <==> !Strays(w, op, urlOk))
            && (Strays(w, op, urlOk) ==>
                  var own := (Key(op.chosen, op.record.instance), op.token);
                  own in Untold(v) && Untold(v) <= Untold(w) + {own})
  {
    var v := Do(w, op, urlOk);
    StepKeeps(w, op, urlOk);
    if op.Login? {
      LoginStraysIff(w, op, urlOk);
    } else {
      forall x | x in Untold(v)
        ensures x in Untold(w)
      {
        assert x.0 in v.disk.secrets;
      }
    }
  }

  lemma LoginStraysIff(w: World, op: Op, urlOk: string -> bool)
    requires Inv(w) && Possible(w, op) && op.Login?
    ensures var v := Do(w, op, urlOk);
            && Stamped(v.disk)
            && (Untold(v) <= Untold(w) <==> !Strays(w, op, urlOk))
            && (Strays(w, op, urlOk) ==>
                  var own := (Key(op.chosen, op.record.instance), op.token);
                  own in Untold(v) && Untold(v) <= Untold(w) + {own})
  {
    hide Save, Do, Untold, Strays, Inv, SecretsOf;
    StepKeeps(w, op, urlOk);
    KeptIsStamped(w);
    KeptIsStamped(Do(w, op, urlOk));
    var own := (Key(op.chosen, op.record.instance), op.token);
    forall x | x in Untold(Do(w, op, urlOk))
      ensures x in Untold(w) || (x == own && Strays(w, op, urlOk))
    {
      if x.0 == own.0 {
        OwnIsNamed(w, op, urlOk, x);
      } else {
        OthersAreTold(w, op, urlOk, x);
      }
    }
    if Strays(w, op, urlOk) {
      StrayIsUntold(w, op, urlOk);
    }
  }

  lemma OwnIsNamed(w: World, op: Op, urlOk: string -> bool, x: (Key, Token))
    requires Inv(w) && Possible(w, op) && op.Login? && Stamped(Do(w, op, urlOk).disk)
    requires x in Untold(Do(w, op, urlOk)) && x.0 == Key(op.chosen, op.record.instance)
    ensures x in Untold(w) || (x.1 == op.token && Strays(w, op, urlOk))
  {
    hide Noticed, Usable;
  }

  lemma OthersAreTold(w: World, op: Op, urlOk: string -> bool, x: (Key, Token))
    requires Inv(w) && Possible(w, op) && op.Login? && Stamped(Do(w, op, urlOk).disk)
    requires x in Untold(Do(w, op, urlOk)) && x.0 != Key(op.chosen, op.record.instance)
    ensures x in Untold(w)
  {
    hide Usable;
    assert x in SecretsOf(w.disk);
  }

  lemma StrayIsUntold(w: World, op: Op, urlOk: string -> bool)
    requires Inv(w) && Possible(w, op) && Strays(w, op, urlOk) && Stamped(Do(w, op, urlOk).disk)
    ensures var own := (Key(op.chosen, op.record.instance), op.token);
            own in Untold(Do(w, op, urlOk)) && own !in Untold(w)
  {
    hide Usable;
    var own := (Key(op.chosen, op.record.instance), op.token);
    assert own in SecretsOf(Do(w, op, urlOk).disk);
    assert own !in w.noticed && own !in w.told && own !in SecretsOf(w.disk);
  }

  /** No login of the run stores a secret and then fails to write a record that would name it. */
  predicate NoneStray(w: World, ops: seq<Op>, urlOk: string -> bool)
    requires Inv(w) && Legal(w, ops, urlOk)
    decreases |ops|
  {
    ops == [] ||
    (!Strays(w, ops[0], urlOk) &&
     (StepKeeps(w, ops[0], urlOk);
      NoneStray(Do(w, ops[0], urlOk), ops[1..], urlOk)))
  }

  lemma {:induction false} RunTells(w: World, ops: seq<Op>, urlOk: string -> bool)
    requires Inv(w) && Legal(w, ops, urlOk) && NoneStray(w, ops, urlOk)
    ensures Stamped(Run(w, ops, urlOk).disk) && Untold(Run(w, ops, urlOk)) <= Untold(w)
    decreases |ops|
  {
    hide Inv, Do, Untold, Strays;
    RunKeeps(w, ops, urlOk);
    KeptIsStamped(w);
    if ops != [] {
      StepStraysIff(w, ops[0], urlOk);
      StepKeeps(w, ops[0], urlOk);
      RunTells(Do(w, ops[0], urlOk), ops[1..], urlOk);
    }
  }

  lemma KeptIsStamped(w: World)
    requires Inv(w)
    ensures Stamped(w.disk)
  {
  }

  /**
   In a run without such a login, whatever else fails along the way, no secret is at rest that nobody was told of: each
   is the one the record names, or was spoken of by a notice, or by the error of a logout that found the record
   unreadable. While it cannot be read nothing names its secret; the login or logout that replaces it says so.
   */
  lemma NothingLeftUntold(ops: seq<Op>, urlOk: string -> bool)
    requires Legal(Empty, ops, urlOk) && NoneStray(Empty, ops, urlOk)
    ensures var w := Run(Empty, ops, urlOk);
            Stamped(w.disk) && Untold(w) == {}
  {
    RunTells(Empty, ops, urlOk);
  }

  /** And while nothing damages the record, every leftover was reported by a notice: another backend's, out of reach. */
  lemma {:induction false} NoticesAreEnough(w: World, ops: seq<Op>, urlOk: string -> bool)
    requires Inv(w) && Legal(w, ops, urlOk) && NoneStray(w, ops, urlOk)
    requires !w.disk.record.Broken? && w.told == {} && Untold(w) == {} && forall op :: op in ops ==> !op.Damage?
    ensures var v := Run(w, ops, urlOk);
            && Stamped(v.disk) && !v.disk.record.Broken?
            && forall x :: x in SecretsOf(v.disk) ==> x.0 in NamedBy(v.disk) || x in v.noticed
    decreases |ops|
  {
    hide Inv;
    KeptIsStamped(w);
    if ops == [] {
      forall x | x in SecretsOf(w.disk)
        ensures x.0 in NamedBy(w.disk) || x in w.noticed
      {
        assert x !in Untold(w);
      }
    } else {
      var v := Do(w, ops[0], urlOk);
      StepStraysIff(w, ops[0], urlOk);
      StepKeeps(w, ops[0], urlOk);
      assert ops[0] in ops;
      assert !v.disk.record.Broken? && v.told == {};
      NoticesAreEnough(v, ops[1..], urlOk);
    }
  }

  /** It happens: a first login that cannot write the record leaves its secret behind, and says nothing of it. */
  lemma ALoginThatStrays()
    ensures var first := Record("https://a", "1", "dev", Unnamed);
            var op := Login(TokenFile, AllWorks.(writesRecord := false), first, "t1");
            var w := Do(Empty, op, (s: string) => true);
            && w.answers == [(op, Some(RecordFailed))]
            && w.disk == Disk(Absent, map[Key(TokenFile, "https://a") := "t1"])
            && Untold(w) == {(Key(TokenFile, "https://a"), "t1")}
  {
    var op := Login(TokenFile, AllWorks.(writesRecord := false), Record("https://a", "1", "dev", Unnamed), "t1");
    var w := Do(Empty, op, (s: string) => true);
    AllReachable(TokenFile);
    var own := (Key(TokenFile, "https://a"), "t1");
    assert SecretsOf(w.disk) == {own};
  }

  predicate Unfailing(ops: seq<Op>) {
    forall op :: op in ops ==> !op.Damage? && op.env == AllWorks
  }

  /** When everything works, exactly the secret the record names is at rest, and none once logged out. */
  ghost predicate Tidy(d: Disk) {
    Stamped(d) && !d.record.Broken? && d.secrets.Keys == NamedBy(d)
  }

  lemma {:induction false} RunTidies(w: World, ops: seq<Op>, urlOk: string -> bool)
    requires Tidy(w.disk) && Legal(w, ops, urlOk) && Unfailing(ops)
    ensures Tidy(Run(w, ops, urlOk).disk)
    decreases |ops|
  {
    if ops != [] {
      StepTidies(w, ops[0], urlOk);
      hide Tidy, Do;
      RunTidies(Do(w, ops[0], urlOk), ops[1..], urlOk);
    }
  }

  lemma StepTidies(w: World, op: Op, urlOk: string -> bool)
    requires Tidy(w.disk) && Possible(w, op) && !op.Damage? && op.env == AllWorks
    ensures Tidy(Do(w, op, urlOk).disk)
  {
    AllReachable(op.chosen);
    if w.disk.record.Stored? {
      AllReachable(w.disk.record.record.holder.backend);
    }
  }

  lemma AllReachable(b: Backend)
    ensures b in AllWorks.canSet && b in AllWorks.canDelete && b in AllWorks.canGet
  {
    match b
    case Keyring =>
    case TokenFile =>
  }

  lemma SecretsAreTheRecords(ops: seq<Op>, urlOk: string -> bool)
    requires Legal(Empty, ops, urlOk) && Unfailing(ops)
    ensures var d := Run(Empty, ops, urlOk).disk;
            && Stamped(d)
            && d.secrets.Keys == NamedBy(d)
            && (d.record.Absent? ==> d.secrets == map[])
  {
    RunTidies(Empty, ops, urlOk);
  }

  // ---------- a renewal and what happens meanwhile ----------

  /** An operation leaves the session's token as it is, ends it, or makes it one never seen before. */
  lemma TokensOnlyMoveOn(w: World, op: Op, urlOk: string -> bool)
    requires Inv(w) && Possible(w, op)
    ensures var v := Do(w, op, urlOk);
            && Stamped(v.disk)
            && (Current(v.disk) == Current(w.disk) || Current(v.disk).None? || Current(v.disk).value !in w.used)
  {
    StepKeeps(w, op, urlOk);
  }

  /** A token that was used and is not the session's is never the session's again. */
  lemma {:induction false} SpentStaysSpent(w: World, ops: seq<Op>, urlOk: string -> bool, t: Token)
    requires Inv(w) && Legal(w, ops, urlOk) && t in w.used && Current(w.disk) != Some(t)
    ensures Stamped(Run(w, ops, urlOk).disk) && Current(Run(w, ops, urlOk).disk) != Some(t)
    ensures t in Run(w, ops, urlOk).used
    decreases |ops|
  {
    if ops != [] {
      TokensOnlyMoveOn(w, ops[0], urlOk);
      StepKeeps(w, ops[0], urlOk);
      assert t in Do(w, ops[0], urlOk).used;
      hide Inv, Do;
      SpentStaysSpent(Do(w, ops[0], urlOk), ops[1..], urlOk, t);
    }
  }

  /** The token a renewal carries. */
  function Carries(w: World, renewal: nat): Token
    requires renewal in w.renewals
  {
    w.renewals[renewal].1
  }

  lemma {:induction false} CarriesTheSame(w: World, ops: seq<Op>, urlOk: string -> bool, renewal: nat)
    requires Legal(w, ops, urlOk) && renewal in w.renewals && renewal in Run(w, ops, urlOk).renewals
    requires forall op :: op in ops ==> !(op.Finish? && op.renewal == renewal)
    ensures Run(w, ops, urlOk).renewals[renewal] == w.renewals[renewal]
    decreases |ops|
  {
    if ops != [] {
      assert ops[0] in ops;
      CarriesTheSame(Do(w, ops[0], urlOk), ops[1..], urlOk, renewal);
    }
  }

  lemma FinishReplaces(w: World, op: Op, urlOk: string -> bool)
    requires Inv(w) && Possible(w, op) && op.Finish? && ResultOf(w, op, urlOk).error.None?
    ensures var v := Do(w, op, urlOk);
            && Current(w.disk) == Some(w.renewals[op.renewal].1)
            && w.disk.record.Stored?
            && v.disk == w.disk.(secrets := w.disk.secrets[KeyFor(w.disk.record.record, op.chosen) := op.token])
            && Stamped(v.disk) && Current(v.disk) == Some(op.token)
  {
  }

  /**
   A renewal that succeeds is a swap: whatever happened since it loaded the session, the session's token is still the
   one it loaded, that token is replaced where it is, and nothing else changes.
   */
  lemma RenewalReplacesWhatItRead(w: World, begin: Op, between: seq<Op>, finish: Op, urlOk: string -> bool)
    requires Inv(w) && begin.Begin? && Possible(w, begin) && ResultOf(w, begin, urlOk).error.None?
    requires finish.Finish? && finish.renewal == begin.renewal
    requires forall o :: o in between ==> !(o.Finish? && o.renewal == finish.renewal)
    requires Legal(Do(w, begin, urlOk), between, urlOk)
    requires var u := Run(Do(w, begin, urlOk), between, urlOk);
             Possible(u, finish) && ResultOf(u, finish, urlOk).error.None?
    ensures var u := Run(Do(w, begin, urlOk), between, urlOk);
            var v := Do(u, finish, urlOk);
            && Stamped(u.disk) && Current(u.disk) == Current(w.disk) && Current(u.disk).Some? && u.disk.record.Stored?
            && v.disk == u.disk.(secrets := u.disk.secrets[KeyFor(u.disk.record.record, finish.chosen) := finish.token])
            && Stamped(v.disk) && Current(v.disk) == Some(finish.token)
  {
    hide Inv, Run, Legal;
    var x := Do(w, begin, urlOk);
    BeginLoadsCurrent(w, begin, urlOk);
    StepKeeps(w, begin, urlOk);
    RunKeeps(x, between, urlOk);
    CarriesTheSame(x, between, urlOk, finish.renewal);
    FinishReplaces(Run(x, between, urlOk), finish, urlOk);
  }

  lemma BeginLoadsCurrent(w: World, begin: Op, urlOk: string -> bool)
    requires Inv(w) && begin.Begin? && Possible(w, begin) && ResultOf(w, begin, urlOk).error.None?
    ensures var x := Do(w, begin, urlOk);
            begin.renewal in x.renewals && Stamped(w.disk) && Current(w.disk) == Some(Carries(x, begin.renewal))
  {
  }

  /** An operation that succeeded in storing a session or in ending one. */
  predicate Settled(w: World, op: Op, urlOk: string -> bool)
    requires Possible(w, op)
  {
    !op.Begin? && !op.Damage? && ResultOf(w, op, urlOk).error.None?
  }

  lemma SettledMovesOn(w: World, op: Op, urlOk: string -> bool)
    requires Inv(w) && Possible(w, op) && Settled(w, op, urlOk)
    ensures var v := Do(w, op, urlOk);
            && Stamped(v.disk)
            && forall t :: t in w.used ==> Current(v.disk) != Some(t)
  {
    StepKeeps(w, op, urlOk);
  }

  /**
   A login, a logout or another renewal that succeeds while a renewal is waiting for the instance wins: the renewal
   then changes nothing, so the login's token is never overwritten and a session that was logged out of does not come
   back.
   */
  lemma RenewalNeverOverwrites(
    w: World, op: Op, between: seq<Op>, finish: Op, urlOk: string -> bool)
    requires Inv(w) && Possible(w, op) && Settled(w, op, urlOk)
    requires finish.Finish? && finish.renewal in w.renewals && !(op.Finish? && op.renewal == finish.renewal)
    requires forall o :: o in between ==> !(o.Finish? && o.renewal == finish.renewal)
    requires Legal(Do(w, op, urlOk), between, urlOk)
    requires Possible(Run(Do(w, op, urlOk), between, urlOk), finish)
    ensures var v := Run(Do(w, op, urlOk), between, urlOk);
            && ResultOf(v, finish, urlOk).error.Some?
            && Do(v, finish, urlOk).disk == v.disk
  {
    hide Inv, Run, Legal;
    var u := Do(w, op, urlOk);
    var v := Run(u, between, urlOk);
    var t := Carries(w, finish.renewal);
    assert t in w.used by {
      CarriedIsUsed(w, finish.renewal);
    }
    StepKeeps(w, op, urlOk);
    SettledMovesOn(w, op, urlOk);
    RunKeeps(u, between, urlOk);
    SpentStaysSpent(u, between, urlOk, t);
    CarriesTheSame(u, between, urlOk, finish.renewal);
    if ResultOf(v, finish, urlOk).error.None? {
      FinishReplaces(v, finish, urlOk);
    }
  }

  lemma CarriedIsUsed(w: World, renewal: nat)
    requires Inv(w) && renewal in w.renewals
    ensures Carries(w, renewal) in w.used
  {
  }

  /** Left alone, a renewal goes through. */
  lemma RenewalAloneSucceeds(w: World, begin: Op, finish: Op, urlOk: string -> bool)
    requires Inv(w) && begin.Begin? && Possible(w, begin) && ResultOf(w, begin, urlOk).error.None?
    requires finish.Finish? && finish.renewal == begin.renewal && finish.env == AllWorks
    requires finish.token != "" && finish.token !in w.used
    ensures var v := Do(w, begin, urlOk);
            && Possible(v, finish)
            && ResultOf(v, finish, urlOk).error.None?
  {
    AllReachable(BackendFor(w.disk.record.record, finish.chosen));
  }

  // ---------- one process reads what another stored ----------

  lemma {:induction false} SessionStays(w: World, ops: seq<Op>, urlOk: string -> bool, key: Key)
    requires Legal(w, ops, urlOk) && forall op :: op in ops ==> op.Begin? || op.Finish?
    requires w.disk.record.Stored? && w.disk.record.record.holder == In(key.backend)
    requires w.disk.record.record.instance == key.instance && key in w.disk.secrets
    ensures var d := Run(w, ops, urlOk).disk;
            && d.record == w.disk.record && key in d.secrets
            && (d.secrets[key] == w.disk.secrets[key] ||
                exists op :: op in ops && op.Finish? && op.token == d.secrets[key])
    decreases |ops|
  {
    if ops != [] {
      var v := Do(w, ops[0], urlOk);
      assert ops[0] in ops;
      assert v.disk.record == w.disk.record && key in v.disk.secrets;
      assert v.disk.secrets[key] == w.disk.secrets[key] || (ops[0].Finish? && ops[0].token == v.disk.secrets[key]);
      SessionStays(v, ops[1..], urlOk, key);
    }
  }

  /**
   A session that was saved loads, whatever renewals follow and whichever backend the process that reads it would have
   picked itself: the record that was saved, with the login's token or a later renewal's.
   */
  lemma SavedLoadsAnywhere(
    w: World, login: Op, ops: seq<Op>, reader: Backend, later: Env, urlOk: string -> bool)
    requires login.Login? && Possible(w, login) && ResultOf(w, login, urlOk).error.None?
    requires Legal(Do(w, login, urlOk), ops, urlOk) && forall op :: op in ops ==> op.Begin? || op.Finish?
    requires later.locks && login.chosen in later.canGet
    ensures var (error, session) := Load(Run(Do(w, login, urlOk), ops, urlOk).disk, reader, later, urlOk);
            && error.None? && session.Some?
            && session.value.0 == login.record.(holder := In(login.chosen))
            && (session.value.1 == login.token || exists op :: op in ops && op.Finish? && op.token == session.value.1)
  {
    SessionStays(Do(w, login, urlOk), ops, urlOk, Key(login.chosen, login.record.instance));
  }

  lemma {:induction false} NothingComesBack(w: World, ops: seq<Op>, urlOk: string -> bool)
    requires w.disk.record.Absent? && Legal(w, ops, urlOk) && forall op :: op in ops ==> !op.Login?
    ensures Run(w, ops, urlOk).disk == w.disk
    decreases |ops|
  {
    if ops != [] {
      assert ops[0] in ops;
      assert Do(w, ops[0], urlOk).disk == w.disk;
      NothingComesBack(Do(w, ops[0], urlOk), ops[1..], urlOk);
    }
  }

  /** The secret of the session, as a process that chose a backend has it. */
  function SessionKey(d: Disk, chosen: Backend): set<Key> {
    if d.record.Stored? then {KeyFor(d.record.record, chosen)} else {}
  }

  /**
   A logout that succeeds lasts until the next login: the record is gone with exactly the secret it names, wherever that
   was, and no renewal under way brings anything back, for any process.
   */
  lemma LoggedOutStaysOut(
    w: World, logout: Op, ops: seq<Op>, reader: Backend, later: Env, urlOk: string -> bool)
    requires logout.Logout? && Possible(w, logout) && ResultOf(w, logout, urlOk).error.None? && later.locks
    requires Legal(Do(w, logout, urlOk), ops, urlOk) && forall op :: op in ops ==> !op.Login?
    ensures var d := Run(Do(w, logout, urlOk), ops, urlOk).disk;
            && d.record.Absent?
            && d.secrets == w.disk.secrets - SessionKey(w.disk, logout.chosen)
            && Load(d, reader, later, urlOk) == (Some(NoCredential), None)
  {
    NothingComesBack(Do(w, logout, urlOk), ops, urlOk);
  }

  // ---------- what a failed login leaves ----------

  /** A record that names a secret which is not there: a client that finds a session and cannot use it. */
  predicate Stranded(d: Disk, chosen: Backend) {
    d.record.Stored? && KeyFor(d.record.record, chosen) !in d.secrets
  }

  /**
   A login that fails strands a record if and only if it failed after the previous session's secret, a different
   one, had been removed: one call, by its cases. Writing the secret before the record does not prevent it.
   */
  lemma FailedLoginStrandsIff(
    d: Disk, chosen: Backend, env: Env, urlOk: string -> bool, record: Record, token: Token)
    requires !Stranded(d, chosen)
    requires Save(d, chosen, env, urlOk, record, token).error.Some?
    ensures Stranded(Save(d, chosen, env, urlOk, record, token).disk, chosen) <==>
              && Usable(record, urlOk) && token != "" && env.locks
              && d.record.Stored? && d.record.record.instance != ""
              && KeyFor(d.record.record, chosen) != Key(chosen, record.instance)
              && BackendFor(d.record.record, chosen) in env.canDelete
  {
  }

  /** It happens: signing in to another instance while the record cannot be written. */
  lemma ALoginThatStrands()
    ensures var first := Record("https://a", "1", "dev", In(TokenFile));
            var d := Disk(Stored(first), map[Key(TokenFile, "https://a") := "t1"]);
            var r := Save(d, TokenFile, AllWorks.(writesRecord := false), (s: string) => true,
                          Record("https://b", "2", "dev", Unnamed), "t2");
            && !Stranded(d, TokenFile)
            && r.error == Some(RecordFailed)
            && Stranded(r.disk, TokenFile)
            && r.disk.secrets == map[Key(TokenFile, "https://b") := "t2"]
  {
    var first := Record("https://a", "1", "dev", In(TokenFile));
    var ka, kb := Key(TokenFile, "https://a"), Key(TokenFile, "https://b");
    assert "https://a"[8] != "https://b"[8];
    assert ka != kb;
    assert (map[ka := "t1"] - {ka})[kb := "t2"] == map[kb := "t2"];
  }

  // ---------- which answer a renewal gets ----------

  /** The session on the disk is the one that a renewal read. */
  predicate IsSession(d: Disk, chosen: Backend, renewed: Record, spent: Token) {
    && d.record.Stored?
    && d.record.record.instance == renewed.instance && d.record.record.deviceId == renewed.deviceId
    && KeyFor(d.record.record, chosen) in d.secrets && d.secrets[KeyFor(d.record.record, chosen)] == spent
  }

  /**
   A renewal is told that its session is gone or is another one only if it is: what cannot be read says nothing about
   it, and is answered so. And where the session is still the one that was read, the token is swapped unless a call
   fails, which is said.
   */
  lemma ReplaceAnswers(d: Disk, chosen: Backend, env: Env, renewed: Record, spent: Token, token: Token)
    ensures var error := ReplaceToken(d, chosen, env, renewed, spent, token).error;
            && (error == Some(NoCredential) ==> d.record.Absent?)
            && (error == Some(CredentialChanged) ==> d.record.Stored? && !IsSession(d, chosen, renewed, spent))
            && (IsSession(d, chosen, renewed, spent) ==>
                  var backend := BackendFor(d.record.record, chosen);
                  error ==
                    if token == "" then Some(EmptyToken)
                    else if !env.locks || backend !in env.canGet then Some(StoreUnavailable)
                    else if backend !in env.canSet then Some(BackendFailed)
                    else None)
            && (token != "" && env == AllWorks && !IsSession(d, chosen, renewed, spent) ==>
                  error == Some(if d.record.Absent? then NoCredential
                                else if d.record.Broken? then StoreUnavailable else CredentialChanged))
  {
    if d.record.Stored? {
      AllReachable(BackendFor(d.record.record, chosen));
    }
  }

  /** Operations that end and store nothing: a renewal's beginning, or one that fails and leaves the disk as it was. */
  predicate Undisturbed(w: World, ops: seq<Op>, urlOk: string -> bool)
    requires Legal(w, ops, urlOk)
    decreases |ops|
  {
    ops == [] ||
    (var op := ops[0];
     && !op.Damage?
     && (op.Begin? || (ResultOf(w, op, urlOk).error.Some? && Do(w, op, urlOk).disk == w.disk))
     && Undisturbed(Do(w, op, urlOk), ops[1..], urlOk))
  }

  lemma {:induction false} DiskStays(w: World, ops: seq<Op>, urlOk: string -> bool)
    requires Legal(w, ops, urlOk) && Undisturbed(w, ops, urlOk)
    ensures Run(w, ops, urlOk).disk == w.disk
    decreases |ops|
  {
    if ops != [] {
      assert Do(w, ops[0], urlOk).disk == w.disk;
      DiskStays(Do(w, ops[0], urlOk), ops[1..], urlOk);
    }
  }

  /**
   Between a renewal's load and its end, if no login, logout or other renewal succeeded, none failed part of the way and
   nothing damaged the record, then whatever calls fail, the renewal is not told that its session is gone or changed.
   */
  lemma UndisturbedRenewalIsNotRefused(w: World, begin: Op, between: seq<Op>, finish: Op, urlOk: string -> bool)
    requires Inv(w) && begin.Begin? && Possible(w, begin) && ResultOf(w, begin, urlOk).error.None?
    requires finish.Finish? && finish.renewal == begin.renewal
    requires Legal(Do(w, begin, urlOk), between, urlOk) && Undisturbed(Do(w, begin, urlOk), between, urlOk)
    requires forall o :: o in between ==> !(o.Finish? && o.renewal == finish.renewal)
    requires Possible(Run(Do(w, begin, urlOk), between, urlOk), finish)
    ensures var error := ResultOf(Run(Do(w, begin, urlOk), between, urlOk), finish, urlOk).error;
            error != Some(NoCredential) && error != Some(CredentialChanged)
  {
    hide Run, Legal, Undisturbed, ReplaceToken;
    var x := Do(w, begin, urlOk);
    var u := Run(x, between, urlOk);
    DiskStays(x, between, urlOk);
    CarriesTheSame(x, between, urlOk, finish.renewal);
    var (renewed, spent) := u.renewals[finish.renewal];
    assert IsSession(u.disk, finish.chosen, renewed, spent) by { BeginReadsSession(w, begin, finish.chosen, urlOk); }
    ReplaceAnswers(u.disk, finish.chosen, finish.env, renewed, spent, finish.token);
  }

  lemma BeginReadsSession(w: World, begin: Op, chosen: Backend, urlOk: string -> bool)
    requires Inv(w) && begin.Begin? && Possible(w, begin) && ResultOf(w, begin, urlOk).error.None?
    ensures var x := Do(w, begin, urlOk);
            && begin.renewal in x.renewals && x.disk == w.disk
            && IsSession(w.disk, chosen, x.renewals[begin.renewal].0, x.renewals[begin.renewal].1)
  {
  }

  // ---------- what the other answers say ----------

  /** A load says that nobody is signed in only when there is no record or no secret, and it could look for both. */
  lemma LoadAnswers(d: Disk, chosen: Backend, env: Env, urlOk: string -> bool)
    ensures var (error, session) := Load(d, chosen, env, urlOk);
            && (error.None? <==> session.Some?)
            && (error == Some(NoCredential) <==>
                  env.locks && !d.record.Broken? &&
                  (d.record.Stored? ==>
                     var r := d.record.record;
                     && r.instance != "" && urlOk(r.instance) && r.deviceId != ""
                     && BackendFor(r, chosen) in env.canGet && KeyFor(r, chosen) !in d.secrets))
            && (session.Some? ==>
                  && d.record.Stored? && session.value.0 == d.record.record
                  && KeyFor(d.record.record, chosen) in d.secrets
                  && session.value.1 == d.secrets[KeyFor(d.record.record, chosen)])
            && (error == Some(UnusableRecord) ==> d.record.Stored?)
  {
  }

  /** Every record a run leaves names an instance that can be used and a device, and no session has an empty token. */
  lemma {:induction false} RecordsAreUsable(w: World, ops: seq<Op>, urlOk: string -> bool)
    requires Legal(w, ops, urlOk)
    requires w.disk.record.Stored? ==>
               var r := w.disk.record.record; r.instance != "" && urlOk(r.instance) && r.deviceId != ""
    requires forall k :: k in w.disk.secrets ==> w.disk.secrets[k] != ""
    ensures var d := Run(w, ops, urlOk).disk;
            && (d.record.Stored? ==>
                  var r := d.record.record; r.instance != "" && urlOk(r.instance) && r.deviceId != "")
            && forall k :: k in d.secrets ==> d.secrets[k] != ""
    decreases |ops|
  {
    if ops != [] {
      StepIsUsable(w, ops[0], urlOk);
      hide Do;
      RecordsAreUsable(Do(w, ops[0], urlOk), ops[1..], urlOk);
    }
  }

  lemma StepIsUsable(w: World, op: Op, urlOk: string -> bool)
    requires Possible(w, op)
    requires w.disk.record.Stored? ==>
               var r := w.disk.record.record; r.instance != "" && urlOk(r.instance) && r.deviceId != ""
    requires forall k :: k in w.disk.secrets ==> w.disk.secrets[k] != ""
    ensures var d := Do(w, op, urlOk).disk;
            && (d.record.Stored? ==>
                  var r := d.record.record; r.instance != "" && urlOk(r.instance) && r.deviceId != "")
            && forall k :: k in d.secrets ==> d.secrets[k] != ""
  {
    hide Noticed, Told;
  }

  /** A login that stores another instance's secret where the previous session has its own. */
  predicate Supersedes(d: Disk, chosen: Backend, instance: string) {
    d.record.Stored? && d.record.record.instance !in {"", instance} && BackendFor(d.record.record, chosen) == chosen
  }

  /**
   Exactly when a login succeeds, and then what it leaves: its own record, with its secret where that says. One that
   fails says what stood in its way.
   */
  lemma LoginSucceedsIff(d: Disk, chosen: Backend, env: Env, urlOk: string -> bool, record: Record, token: Token)
    ensures var r := Save(d, chosen, env, urlOk, record, token);
            var key := Key(chosen, record.instance);
            && (r.error.None? <==>
                  && record.instance != "" && urlOk(record.instance) && record.deviceId != "" && token != ""
                  && env.locks && chosen in env.canSet && env.writesRecord
                  && (Supersedes(d, chosen, record.instance) ==> chosen in env.canDelete))
            && (r.error.None? ==>
                  && r.disk.record == Stored(record.(holder := In(chosen)))
                  && key in r.disk.secrets && r.disk.secrets[key] == token)
            && (r.error == Some(UnusableRecord) <==>
                  record.instance == "" || !urlOk(record.instance) || record.deviceId == "")
            && (r.error == Some(EmptyToken) ==> token == "")
            && (r.error == Some(StoreUnavailable) ==> !env.locks)
            && (r.error == Some(RecordFailed) ==> !env.writesRecord)
            && (r.error == Some(BackendFailed) ==> chosen !in env.canSet || chosen !in env.canDelete)
            && r.error !in {Some(NoCredential), Some(CredentialChanged)}
  {
  }

  /** Exactly when a logout succeeds; one that fails leaves a record that can be read, so that it can be tried again. */
  lemma LogoutSucceedsIff(d: Disk, chosen: Backend, env: Env)
    ensures var r := Clear(d, chosen, env);
            && (r.error.None? <==>
                  && env.locks && !d.record.Broken?
                  && (d.record.Stored? ==> BackendFor(d.record.record, chosen) in env.canDelete && env.removesRecord))
            && (r.error.Some? && d.record.Stored? ==> r.disk.record == d.record)
            && (d.record.Broken? && env.locks && env.removesRecord ==>
                  r.disk.record.Absent? && r.error == Some(UnusableRecord))
  {
  }
}
