/**
 The identity an installation keeps from login to login (daemon/credentials/credentials.go): a file of its own, which
 an older installation fills from the record it already has.
 */
module DeviceId {
  import opened Bytes
  import opened Credentials

  /** A piece of a file read as UTF-8: a character, or a byte that is not part of one. */
  datatype Symbol = Scalar(c: char) | Stray(b: byte)

  type Text = seq<Symbol>

  /** The backend's own bound, in bytes. */
  const MaxDeviceId := 128

  const NewLine := Scalar('\n')

  function Width(s: Symbol): nat {
    match s
    case Stray(_) => 1
    case Scalar(c) =>
      if c as int < 0x80 then 1
      else if c as int < 0x800 then 2
      else if c as int < 0x1_0000 then 3
      else 4
  }

  function PowerOf2(n: nat): nat {
    if n == 0 then 1 else 2 * PowerOf2(n - 1)
  }

  /** How many bits of a code point n bytes have room for: seven in one, and five more in each one behind two. */
  function Bits(n: nat): nat {
    if n < 2 then 7 * n else 5 * n + 1
  }

  /** A character takes the fewest bytes that have room for it: section 3 of RFC 3629. */
  lemma WidthIsLeast(c: char)
    ensures 1 <= Width(Scalar(c)) <= 4
    ensures (c as int) < PowerOf2(Bits(Width(Scalar(c))))
    ensures Width(Scalar(c)) > 1 ==> PowerOf2(Bits(Width(Scalar(c)) - 1)) <= c as int
  {
    assert PowerOf2(7) == 0x80;
    assert PowerOf2(11) == 0x10 * PowerOf2(7);
    assert PowerOf2(16) == 0x20 * PowerOf2(11);
    assert PowerOf2(21) == 0x20 * PowerOf2(16);
  }

  function Size(t: Text): nat {
    if t == [] then 0 else Width(t[0]) + Size(t[1..])
  }

  predicate ValidUtf8(t: Text) {
    forall s :: s in t ==> s.Scalar?
  }

  /** The Unicode property White_Space. */
  predicate IsSpace(s: Symbol) {
    s.Scalar? &&
    var c := s.c as int;
    || 0x09 <= c <= 0x0D
    || c in {0x20, 0x85, 0xA0, 0x1680, 0x2028, 0x2029, 0x202F, 0x205F, 0x3000}
    || 0x2000 <= c <= 0x200A
  }

  /** The identifier without the space around it, if it is one that any instance takes. */
  function Normalized(raw: Text): Option<Text> {
    var id := Trim(raw, IsSpace);
    if id != [] && Size(id) <= MaxDeviceId && ValidUtf8(id) then Some(id) else None
  }

  predicate Acceptable(id: Text) {
    Bare(id, IsSpace) && Size(id) <= MaxDeviceId && ValidUtf8(id)
  }

  /** An identifier is accepted if and only if it is an acceptable one with nothing but white space around it. */
  lemma NormalizedIff(raw: Text, id: Text)
    ensures Normalized(raw) == Some(id) <==>
              && Acceptable(id)
              && exists before, after :: All(before, IsSpace) && All(after, IsSpace) && raw == before + id + after
  {
    if id != [] {
      TrimIff(raw, id, IsSpace);
    }
  }

  /** Storing changes nothing: an identifier that was accepted is accepted again as it is, alone or as a line. */
  lemma NormalizedTwice(raw: Text)
    requires Normalized(raw).Some?
    ensures var id := Normalized(raw).value;
            Normalized(id) == Some(id) && Normalized(id + [NewLine]) == Some(id)
  {
    hide Normalized, Acceptable;
    var id := Normalized(raw).value;
    NormalizedIff(raw, id);
    assert id == [] + id + [] && id + [NewLine] == [] + id + [NewLine];
    assert All([], IsSpace) && All([NewLine], IsSpace);
    NormalizedIff(id, id);
    NormalizedIff(id + [NewLine], id);
  }

  // ---------- a new identifier ----------

  predicate Base64Url(c: char) {
    'A' <= c <= 'Z' || 'a' <= c <= 'z' || '0' <= c <= '9' || c == '-' || c == '_'
  }

  function FromString(s: string): Text {
    seq(|s|, i requires 0 <= i < |s| => Scalar(s[i]))
  }

  /** Sixteen random bytes, in base64url without padding, behind a prefix. */
  predicate Minted(id: string) {
    |id| == 26 && id[..4] == "dev_" && forall i :: 4 <= i < 26 ==> Base64Url(id[i])
  }

  lemma {:induction false} AsciiSize(t: Text)
    requires forall i :: 0 <= i < |t| ==> t[i].Scalar? && (t[i].c as int) < 0x80
    ensures Size(t) == |t|
  {
    if t != [] {
      AsciiSize(t[1..]);
    }
  }

  lemma MintedIsAcceptable(id: string)
    requires Minted(id)
    ensures Acceptable(FromString(id)) && Normalized(FromString(id)) == Some(FromString(id))
  {
    var t := FromString(id);
    assert id[0] == id[..4][0] && id[1] == id[..4][1] && id[2] == id[..4][2] && id[3] == id[..4][3];
    AsciiSize(t);
    TrimIff(t, t, IsSpace);
    assert All([], IsSpace);
    assert [] + t + [] == t;
  }

  // ---------- asking ----------

  datatype DeviceFile = NoFile | Holding(text: Text)

  datatype Home = Home(disk: Disk, device: DeviceFile)

  /** How a write ended: flushed to the disk, in place but not flushed, or not made. */
  datatype Written = Flushed | Unflushed | Refused

  datatype DeviceEnv = DeviceEnv(locks: bool, readable: bool, mints: bool, written: Written)

  /**
   An identifier comes back even when it could not be recorded, with the error. In place is recorded, flushed or not.
   */
  datatype Answer = Known(id: Text) | Unrecorded(id: Text) | Failed

  function Recorded(h: Home, id: Text, env: DeviceEnv): (Home, Answer) {
    (if env.written.Refused? then h else h.(device := Holding(id + [NewLine])),
     if env.written.Refused? then Unrecorded(id) else Known(id))
  }

  function FromFile(h: Home): Option<Text> {
    if h.device.Holding? then Normalized(h.device.text) else None
  }

  function FromRecord(h: Home): Option<Text> {
    if h.disk.record.Stored? then Normalized(FromString(h.disk.record.record.deviceId)) else None
  }

  function Ask(h: Home, env: DeviceEnv, minted: string): (Home, Answer) {
    if !env.locks || (h.device.Holding? && !env.readable) then (h, Failed)
    else if FromFile(h).Some? then (h, Known(FromFile(h).value))
    else if FromRecord(h).Some? then Recorded(h, FromRecord(h).value, env)
    else if !env.mints then (h, Failed)
    else Recorded(h, FromString(minted), env)
  }

  class Identity {
    const machine: Machine
    var device: DeviceFile

    constructor (machine: Machine, device: DeviceFile)
      ensures this.machine == machine && this.device == device
    {
      this.machine, this.device := machine, device;
    }

    method WriteDeviceId(id: Text, env: DeviceEnv) returns (ok: bool)
      modifies this`device
      ensures ok <==> !env.written.Refused?
      ensures device == if env.written.Refused? then old(device) else Holding(id + [NewLine])
    {
      ok := !env.written.Refused?;
      if ok {
        device := Holding(id + [NewLine]);
      }
    }

    method GetDeviceId(env: DeviceEnv, minted: string) returns (answer: Answer)
      modifies this`device
      ensures (Home(machine.Abs(), device), answer) == Ask(old(Home(machine.Abs(), device)), env, minted)
    {
      if !env.locks {
        return Failed;
      }
      if device.Holding? && !env.readable {
        return Failed;
      }
      var text := if device.Holding? then device.text else [];
      var stored := Normalized(text);
      if stored.Some? {
        return Known(stored.value);
      }
      var id: Text := [];
      var adopted := if machine.record.Stored? then Normalized(FromString(machine.record.record.deviceId)) else None;
      if adopted.Some? {
        id := adopted.value;
      } else {
        if !env.mints {
          return Failed;
        }
        id := FromString(minted);
      }
      var ok := WriteDeviceId(id, env);
      return if ok then Known(id) else Unrecorded(id);
    }
  }

  /** Whatever is answered is what an instance accepts, and sees, unchanged. */
  lemma AnsweredIsAcceptable(h: Home, env: DeviceEnv, minted: string)
    requires Minted(minted)
    ensures var a := Ask(h, env, minted).1; !a.Failed? ==> Normalized(a.id) == Some(a.id)
  {
    hide Normalized;
    if FromFile(h).Some? {
      NormalizedTwice(h.device.text);
    }
    if FromRecord(h).Some? {
      NormalizedTwice(FromString(h.disk.record.record.deviceId));
    }
    MintedIsAcceptable(minted);
  }

  /** An installation that predates the file keeps the identity its record carries. */
  lemma Adopted(h: Home, env: DeviceEnv, minted: string)
    requires env.locks && env.readable && FromFile(h).None? && FromRecord(h).Some?
    ensures var (g, a) := Ask(h, env, minted);
            && !a.Failed?
            && a.id == FromRecord(h).value
            && (a.Known? ==> FromFile(g) == Some(a.id))
            && (a.Unrecorded? ==> Ask(g, env.(written := Flushed), minted).1 == Known(a.id))
  {
    hide Normalized;
    NormalizedTwice(FromString(h.disk.record.record.deviceId));
  }

  /** White space in a record is not adopted: it would be trimmed to nothing the next time. */
  lemma BlankIsNotAdopted(h: Home, env: DeviceEnv, minted: string)
    requires env.locks && env.readable && env.mints && FromFile(h).None?
    requires h.disk.record.Stored? && All(FromString(h.disk.record.record.deviceId), IsSpace)
    ensures Ask(h, env, minted) == Recorded(h, FromString(minted), env)
  {
    var t := FromString(h.disk.record.record.deviceId);
    TrimLeftDrops(t, [], IsSpace);
    assert t + [] == t;
  }

  // ---------- over a run ----------

  datatype Step =
    | Saved(chosen: Backend, env: Env, record: Record, token: Token)
    | Cleared(chosen: Backend, env: Env)
    | Replaced(chosen: Backend, env: Env, record: Record, spent: Token, token: Token)
    | Asked(asking: DeviceEnv, minted: string)

  function After(h: Home, s: Step, urlOk: string -> bool): Home {
    match s
    case Saved(chosen, env, record, token) => h.(disk := Save(h.disk, chosen, env, urlOk, record, token).disk)
    case Cleared(chosen, env) => h.(disk := Clear(h.disk, chosen, env).disk)
    case Replaced(chosen, env, record, spent, token) =>
      h.(disk := ReplaceToken(h.disk, chosen, env, record, spent, token).disk)
    case Asked(env, minted) => Ask(h, env, minted).0
  }

  function AfterAll(h: Home, steps: seq<Step>, urlOk: string -> bool): Home
    decreases |steps|
  {
    if steps == [] then h else AfterAll(After(h, steps[0], urlOk), steps[1..], urlOk)
  }

  lemma {:induction false} FileStays(h: Home, steps: seq<Step>, urlOk: string -> bool)
    requires FromFile(h).Some?
    ensures AfterAll(h, steps, urlOk).device == h.device
    decreases |steps|
  {
    hide Normalized, Save, Clear, ReplaceToken;
    if steps != [] {
      assert After(h, steps[0], urlOk).device == h.device;
      FileStays(After(h, steps[0], urlOk), steps[1..], urlOk);
    }
  }

  /** An identifier that was answered as recorded can be read back. */
  lemma KnownIsInTheFile(h: Home, env: DeviceEnv, minted: string)
    requires Minted(minted)
    ensures var (g, a) := Ask(h, env, minted);
            a.Known? ==> FromFile(g) == Some(a.id)
  {
    hide Normalized;
    if FromFile(h).Some? {
      NormalizedTwice(h.device.text);
    }
    if FromRecord(h).Some? {
      NormalizedTwice(FromString(h.disk.record.record.deviceId));
    }
    MintedIsAcceptable(minted);
    NormalizedTwice(FromString(minted));
  }

  /**
   Once answered, always the answer: whatever logins, logouts and renewals follow, by whichever processes and failing
   wherever they may, every later call that can read the file answers the same.
   */
  lemma IdentityIsStable(
    h: Home, env: DeviceEnv, minted: string, steps: seq<Step>, later: DeviceEnv, otherwise: string,
    urlOk: string -> bool)
    requires Minted(minted) && Ask(h, env, minted).1.Known?
    ensures var (g, a) := Ask(h, env, minted);
            var end := AfterAll(g, steps, urlOk);
            Ask(end, later, otherwise) == (end, if later.locks && later.readable then Known(a.id) else Failed)
  {
    var (g, a) := Ask(h, env, minted);
    KnownIsInTheFile(h, env, minted);
    FileStays(g, steps, urlOk);
  }

  /**
   A crash is the exception, when the write was answered without having been flushed: the file may then be what it was
   before. The same identifier is answered after that if and only if the record there is by then carries it, or carries
   none and the very same one is minted again.
   */
  lemma ACrashMayTakeItBack(
    h: Home, env: DeviceEnv, minted: string, steps: seq<Step>, later: DeviceEnv, otherwise: string,
    urlOk: string -> bool)
    requires Ask(h, env, minted).1.Known? && FromFile(h).None? && later.locks && later.readable && later.mints
    ensures var (g, a) := Ask(h, env, minted);
            var lost := AfterAll(g, steps, urlOk).(device := h.device);
            && !Ask(lost, later, otherwise).1.Failed?
            && (Ask(lost, later, otherwise).1.id == a.id <==>
                  FromRecord(lost) == Some(a.id) || (FromRecord(lost).None? && FromString(otherwise) == a.id))
  {
    hide Normalized, AfterAll;
  }

  lemma {:induction false} RecordStays(h: Home, steps: seq<Step>, urlOk: string -> bool)
    requires forall s :: s in steps ==> s.Replaced? || s.Asked?
    ensures AfterAll(h, steps, urlOk).disk.record == h.disk.record
    decreases |steps|
  {
    hide Normalized;
    if steps != [] {
      assert steps[0] in steps;
      assert After(h, steps[0], urlOk).disk.record == h.disk.record;
      RecordStays(After(h, steps[0], urlOk), steps[1..], urlOk);
    }
  }

  /**
   And it outlives the file: a session saved under it, and not ended since, brings it back when the file is gone or
   cannot be used, however often it was renewed.
   */
  lemma IdentityOutlivesItsFile(
    h: Home, chosen: Backend, env: Env, record: Record, token: Token, steps: seq<Step>, lost: DeviceFile,
    asking: DeviceEnv, minted: string, urlOk: string -> bool)
    requires Save(h.disk, chosen, env, urlOk, record, token).error.None?
    requires forall s :: s in steps ==> s.Replaced? || s.Asked?
    requires Normalized(FromString(record.deviceId)) == Some(FromString(record.deviceId))
    requires FromFile(Home(h.disk, lost)).None? && asking.locks && asking.readable
    ensures var saved := After(h, Saved(chosen, env, record, token), urlOk);
            var a := Ask(AfterAll(saved, steps, urlOk).(device := lost), asking, minted).1;
            !a.Failed? && a.id == FromString(record.deviceId)
  {
    hide Normalized, AfterAll;
    RecordStays(After(h, Saved(chosen, env, record, token), urlOk), steps, urlOk);
  }
}
