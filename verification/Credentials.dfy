/**
 The one session a client account has on a machine (daemon/credentials/credentials.go, secretstore.go): a record, a
 secret in one of two backends, and the lock that makes each operation one step.
 */
module Credentials {
  import opened Bytes

  /** Where a secret can be. Which one a process writes to is what its own probe answered, once. */
  datatype Backend = Keyring | TokenFile

  /** Where a record says its secret is; a record from before the field existed, or from a later version, does not. */
  datatype Holder = In(backend: Backend) | Unnamed

  datatype Record = Record(instance: string, userId: string, deviceId: string, holder: Holder)

  datatype RecordFile = Absent | Broken | Stored(record: Record)

  datatype Key = Key(backend: Backend, instance: string)

  type Token = string

  /** What the machine holds between operations. */
  datatype Disk = Disk(record: RecordFile, secrets: map<Key, Token>)

  /** What works while an operation runs: any call into a backend, and any write, may fail. */
  datatype Env = Env(
    locks: bool,
    canGet: set<Backend>,
    canSet: set<Backend>,
    canDelete: set<Backend>,
    writesRecord: bool,
    removesRecord: bool)

  const AllWorks := Env(true, {Keyring, TokenFile}, {Keyring, TokenFile}, {Keyring, TokenFile}, true, true)

  datatype Error =
    | NoCredential
    | UnusableRecord
    | EmptyToken
    | StoreUnavailable
    | BackendFailed
    | RecordFailed
    | CredentialChanged

  /** What a person is told when an operation goes on all the same. */
  datatype Notice = Unidentified | LeftBehind(key: Key)

  /** What an operation leaves, what it says, and what it tells. None is success. */
  datatype Result = Result(disk: Disk, error: Option<Error>, notices: seq<Notice>)

  predicate Usable(r: Record, urlOk: string -> bool) {
    r.instance != "" && urlOk(r.instance) && r.deviceId != ""
  }

  /** The record is believed over the probe. */
  function BackendFor(r: Record, chosen: Backend): Backend {
    if r.holder.In? then r.holder.backend else chosen
  }

  function KeyFor(r: Record, chosen: Backend): Key {
    Key(BackendFor(r, chosen), r.instance)
  }

  // ---------- the operations ----------

  /** A login's first step: the secret it supersedes goes, if that is another than the one to come. */
  function RemoveSuperseded(d: Disk, chosen: Backend, env: Env, key: Key): Result {
    match d.record
    case Absent => Result(d, None, [])
    case Broken => Result(d, None, [Unidentified])
    case Stored(previous) =>
      var prior := KeyFor(previous, chosen);
      if previous.instance == "" || prior == key then Result(d, None, [])
      else if prior.backend in env.canDelete then Result(d.(secrets := d.secrets - {prior}), None, [])
      else if prior.backend == key.backend then Result(d, Some(BackendFailed), [])
      else Result(d, None, [LeftBehind(prior)])
  }

  function Save(d: Disk, chosen: Backend, env: Env, urlOk: string -> bool, record: Record, token: Token): Result {
    if !Usable(record, urlOk) then Result(d, Some(UnusableRecord), [])
    else if token == "" then Result(d, Some(EmptyToken), [])
    else if !env.locks then Result(d, Some(StoreUnavailable), [])
    else
      var key := Key(chosen, record.instance);
      var cleared := RemoveSuperseded(d, chosen, env, key);
      if cleared.error.Some? then cleared
      else if chosen !in env.canSet then cleared.(error := Some(BackendFailed))
      else
        var stored := cleared.disk.(secrets := cleared.disk.secrets[key := token]);
        if !env.writesRecord then cleared.(disk := stored, error := Some(RecordFailed))
        else cleared.(disk := stored.(record := Stored(record.(holder := In(chosen)))))
  }

  /** The stored session. */
  function Load(d: Disk, chosen: Backend, env: Env, urlOk: string -> bool): (Option<Error>, Option<(Record, Token)>) {
    if !env.locks then (Some(StoreUnavailable), None)
    else
      match d.record
      case Absent => (Some(NoCredential), None)
      case Broken => (Some(StoreUnavailable), None)
      case Stored(r) =>
        var key := KeyFor(r, chosen);
        if !Usable(r, urlOk) then (Some(UnusableRecord), None)
        else if key.backend !in env.canGet then (Some(BackendFailed), None)
        else if key !in d.secrets then (Some(NoCredential), None)
        else (None, Some((r, d.secrets[key])))
  }

  /** Removes the stored session. Absent is success. */
  function Clear(d: Disk, chosen: Backend, env: Env): Result {
    if !env.locks then Result(d, Some(StoreUnavailable), [])
    else
      match d.record
      case Absent => Result(d, None, [])
      case Broken =>
        if !env.removesRecord then Result(d, Some(RecordFailed), [])
        else Result(d.(record := Absent), Some(UnusableRecord), [])
      case Stored(r) =>
        var key := KeyFor(r, chosen);
        if key.backend !in env.canDelete then Result(d, Some(BackendFailed), [])
        else
          var gone := d.(secrets := d.secrets - {key});
          if !env.removesRecord then Result(gone, Some(RecordFailed), [])
          else Result(gone.(record := Absent), None, [])
  }

  /** A renewal's last step: the new token in place of the spent one, if that is still the session's. */
  function ReplaceToken(d: Disk, chosen: Backend, env: Env, renewed: Record, spent: Token, token: Token): Result {
    if token == "" then Result(d, Some(EmptyToken), [])
    else if !env.locks then Result(d, Some(StoreUnavailable), [])
    else
      match d.record
      case Absent => Result(d, Some(NoCredential), [])
      case Broken => Result(d, Some(StoreUnavailable), [])
      case Stored(current) =>
        if current.instance != renewed.instance || current.deviceId != renewed.deviceId then
          Result(d, Some(CredentialChanged), [])
        else
          var key := KeyFor(current, chosen);
          if key.backend !in env.canGet then Result(d, Some(StoreUnavailable), [])
          else if key !in d.secrets || d.secrets[key] != spent then Result(d, Some(CredentialChanged), [])
          else if key.backend !in env.canSet then Result(d, Some(BackendFailed), [])
          else Result(d.(secrets := d.secrets[key := token]), None, [])
  }

  // ---------- the store ----------

  /** The files and the keyring every process on the machine shares. */
  class Machine {
    var record: RecordFile
    var secrets: map<Key, Token>

    constructor ()
      ensures Abs() == Disk(Absent, map[])
    {
      record, secrets := Absent, map[];
    }

    function Abs(): Disk
      reads this
    {
      Disk(record, secrets)
    }

    method SetSecret(b: Backend, instance: string, token: Token, env: Env) returns (ok: bool)
      modifies this`secrets
      ensures ok <==> b in env.canSet
      ensures secrets == if ok then old(secrets)[Key(b, instance) := token] else old(secrets)
    {
      ok := b in env.canSet;
      if ok {
        secrets := secrets[Key(b, instance) := token];
      }
    }

    method DeleteSecret(b: Backend, instance: string, env: Env) returns (ok: bool)
      modifies this`secrets
      ensures ok <==> b in env.canDelete
      ensures secrets == if ok then old(secrets) - {Key(b, instance)} else old(secrets)
    {
      ok := b in env.canDelete;
      if ok {
        secrets := secrets - {Key(b, instance)};
      }
    }
  }

  class Store {
    const machine: Machine
    const chosen: Backend
    const urlOk: string -> bool
    var notices: seq<Notice>

    constructor (machine: Machine, chosen: Backend, urlOk: string -> bool)
      ensures this.machine == machine && this.chosen == chosen && this.urlOk == urlOk && notices == []
    {
      this.machine, this.chosen, this.urlOk := machine, chosen, urlOk;
      notices := [];
    }

    method RemovePrevious(instance: string, env: Env) returns (error: Option<Error>)
      modifies this, machine`secrets
      ensures var r := RemoveSuperseded(old(machine.Abs()), chosen, env, Key(chosen, instance));
              machine.Abs() == r.disk && error == r.error && notices == old(notices) + r.notices
    {
      if machine.record.Absent? {
        return None;
      }
      if machine.record.Broken? {
        notices := notices + [Unidentified];
        return None;
      }
      var previous := machine.record.record;
      if previous.instance == "" {
        return None;
      }
      var from := BackendFor(previous, chosen);
      if previous.instance == instance && from == chosen {
        return None;
      }
      var deleted := machine.DeleteSecret(from, previous.instance, env);
      if !deleted {
        if from == chosen {
          return Some(BackendFailed);
        }
        notices := notices + [LeftBehind(Key(from, previous.instance))];
      }
      return None;
    }

    method SaveSession(record: Record, token: Token, env: Env) returns (error: Option<Error>)
      modifies this, machine
      ensures var r := Save(old(machine.Abs()), chosen, env, urlOk, record, token);
              machine.Abs() == r.disk && error == r.error && notices == old(notices) + r.notices
    {
      if !Usable(record, urlOk) {
        return Some(UnusableRecord);
      }
      if token == "" {
        return Some(EmptyToken);
      }
      if !env.locks {
        return Some(StoreUnavailable);
      }
      var stamped := record.(holder := In(chosen));
      error := RemovePrevious(stamped.instance, env);
      if error.Some? {
        return;
      }
      var set' := machine.SetSecret(chosen, stamped.instance, token, env);
      if !set' {
        return Some(BackendFailed);
      }
      if !env.writesRecord {
        return Some(RecordFailed);
      }
      machine.record := Stored(stamped);
    }

    method LoadSession(env: Env) returns (error: Option<Error>, session: Option<(Record, Token)>)
      ensures (error, session) == Load(machine.Abs(), chosen, env, urlOk)
    {
      session := None;
      if !env.locks {
        return Some(StoreUnavailable), None;
      }
      match machine.record
      case Absent => error := Some(NoCredential);
      case Broken => error := Some(StoreUnavailable);
      case Stored(r) =>
        if !Usable(r, urlOk) {
          return Some(UnusableRecord), None;
        }
        var key := KeyFor(r, chosen);
        if key.backend !in env.canGet {
          return Some(BackendFailed), None;
        }
        if key !in machine.secrets {
          return Some(NoCredential), None;
        }
        return None, Some((r, machine.secrets[key]));
    }

    method ClearSession(env: Env) returns (error: Option<Error>)
      modifies machine
      ensures var r := Clear(old(machine.Abs()), chosen, env);
              machine.Abs() == r.disk && error == r.error && r.notices == []
    {
      if !env.locks {
        return Some(StoreUnavailable);
      }
      match machine.record
      case Absent => error := None;
      case Broken =>
        if !env.removesRecord {
          return Some(RecordFailed);
        }
        machine.record := Absent;
        return Some(UnusableRecord);
      case Stored(r) =>
        var deleted := machine.DeleteSecret(BackendFor(r, chosen), r.instance, env);
        if !deleted {
          return Some(BackendFailed);
        }
        if !env.removesRecord {
          return Some(RecordFailed);
        }
        machine.record := Absent;
        return None;
    }

    method ReplaceSessionToken(renewed: Record, spent: Token, token: Token, env: Env) returns (error: Option<Error>)
      modifies machine`secrets
      ensures var r := ReplaceToken(old(machine.Abs()), chosen, env, renewed, spent, token);
              machine.Abs() == r.disk && error == r.error && r.notices == []
    {
      if token == "" {
        return Some(EmptyToken);
      }
      if !env.locks {
        return Some(StoreUnavailable);
      }
      match machine.record
      case Absent => error := Some(NoCredential);
      case Broken => error := Some(StoreUnavailable);
      case Stored(current) =>
        if current.instance != renewed.instance || current.deviceId != renewed.deviceId {
          return Some(CredentialChanged);
        }
        var key := KeyFor(current, chosen);
        if key.backend !in env.canGet {
          return Some(StoreUnavailable);
        }
        if key !in machine.secrets || machine.secrets[key] != spent {
          return Some(CredentialChanged);
        }
        var swapped := machine.SetSecret(key.backend, current.instance, token, env);
        return if swapped then None else Some(BackendFailed);
    }
  }
}
