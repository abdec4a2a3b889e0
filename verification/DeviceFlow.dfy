/**
 The device-code sign-in flow (backend/internal/auth/device.go, backend/internal/db/queries/device.sql; section 3.5
 of RFC 8628): a waiting client polls, somebody approves or denies from another machine, and the two race. Every
 query is one atomic step; a poll and a denial are two steps each, and anything may happen in between.
 */
module DeviceFlow {
  import opened Bytes

  /** One authorization. A time that is None has not come. */
  datatype Row = Row(
    id: nat,
    hash: nat,
    deviceId: string,
    deviceName: string,
    user: Option<nat>,
    deniedAt: Option<int>,
    consumedAt: Option<int>,
    lastPolledAt: Option<int>,
    expiresAt: int)

  datatype Session = Session(code: nat, user: nat, deviceId: string, deviceName: string)

  /** What one poll answers. Approved is not yet an answer: the code has still to be spent. */
  datatype PollAnswer = Gone | SlowDown | Denied | Pending | Approved

  datatype DenyOutcome = Stopped | Revoked | TooLate

  // ---------- the queries ----------

  /** Rows an UPDATE touches are rewritten, the others left. */
  function Update(rows: seq<Row>, where: Row -> bool, to: Row -> Row): (r: seq<Row>)
    ensures |r| == |rows|
    ensures forall i :: 0 <= i < |rows| ==> r[i] == if where(rows[i]) then to(rows[i]) else rows[i]
  {
    seq(|rows|, i requires 0 <= i < |rows| => if where(rows[i]) then to(rows[i]) else rows[i])
  }

  /** The row a statement that returns one row returns. */
  function Match(rows: seq<Row>, where: Row -> bool): (r: Option<Row>)
    ensures r.Some? ==> r.value in rows && where(r.value)
    ensures r.None? ==> forall x :: x in rows ==> !where(x)
  {
    if rows == [] then None
    else if where(rows[0]) then Some(rows[0])
    else Match(rows[1..], where)
  }

  function Remaining(rows: seq<Row>, now: int): (r: seq<Row>)
    ensures forall x :: x in r <==> x in rows && !(x.expiresAt < now)
  {
    if rows == [] then []
    else (if rows[0].expiresAt < now then [] else [rows[0]]) + Remaining(rows[1..], now)
  }

  /** The rows that are swept, as they were. */
  function Expired(rows: seq<Row>, now: int): (r: seq<Row>)
    ensures forall x :: x in r <==> x in rows && x.expiresAt < now
  {
    if rows == [] then []
    else (if rows[0].expiresAt < now then [rows[0]] else []) + Expired(rows[1..], now)
  }

  /** Still to be decided: the conditions ApproveDeviceCode and DenyDeviceCode share. */
  predicate Undecided(r: Row, now: int) {
    r.user.None? && r.deniedAt.None? && r.consumedAt.None? && r.expiresAt > now
  }

  function UndecidedIs(id: nat, now: int): Row -> bool {
    (r: Row) => r.id == id && Undecided(r, now)
  }

  /** ConsumeDeviceCode's condition: approved, not denied, not spent, not expired. */
  predicate Redeemable(r: Row, now: int) {
    r.user.Some? && r.deniedAt.None? && r.consumedAt.None? && r.expiresAt > now
  }

  function RedeemableIs(hash: nat, now: int): Row -> bool {
    (r: Row) => r.hash == hash && Redeemable(r, now)
  }

  /** RevokeApprovedDeviceCode's condition, scoped to the account the approval named. */
  function RevocableIs(id: nat, user: nat): Row -> bool {
    (r: Row) => r.id == id && r.user == Some(user) && r.consumedAt.None?
  }

  /** PollDeviceCode's condition. */
  function PollableIs(hash: nat, now: int): Row -> bool {
    (r: Row) => r.hash == hash && r.consumedAt.None? && r.expiresAt > now
  }

  function Approving(user: nat): Row -> Row { (r: Row) => r.(user := Some(user)) }

  function Denying(now: int): Row -> Row { (r: Row) => r.(deniedAt := Some(now)) }

  function Spending(now: int): Row -> Row { (r: Row) => r.(consumedAt := Some(now)) }

  function Polling(now: int): Row -> Row { (r: Row) => r.(lastPolledAt := Some(now)) }

  function OwnedBy(user: nat): Row -> bool {
    (r: Row) => r.user == Some(user) && r.consumedAt.None?
  }

  predicate TooSoon(r: Row, now: int, interval: int) {
    r.lastPolledAt.Some? && r.lastPolledAt.value > now - interval
  }

  /** What a poll answers, from the row as it was before the poll. */
  function AnswerOf(row: Option<Row>, now: int, interval: int): PollAnswer {
    if row.None? then Gone
    else if TooSoon(row.value, now, interval) then SlowDown
    else if row.value.deniedAt.Some? then Denied
    else if row.value.user.None? then Pending
    else Approved
  }

  // ---------- the service ----------

  /**
   The table, the sessions created, and what is in flight: polls that have seen an approval and have not spent the
   code yet, and denials that found nothing to deny and have not tried to revoke yet. The rest is the log of what the
   service has said and done: issued, approvals and reports, the rows that were swept, the codes that a revocation
   spent, and which code each poll touched and when.
   */
  datatype State = State(
    rows: seq<Row>,
    sessions: seq<Session>,
    polls: map<nat, nat>,
    denials: map<nat, (nat, nat)>,
    issued: seq<Row>,
    approvals: seq<(nat, nat)>,
    reports: seq<(nat, DenyOutcome)>,
    swept: seq<Row>,
    revoked: set<nat>,
    touched: seq<(nat, int)>)

  datatype Step =
    | Start(id: nat, hash: nat, deviceId: string, deviceName: string, expiresAt: int)
    | Poll(poll: nat, hash: nat, now: int, interval: int)
    | Redeem(poll: nat, now: int)
    | Abandon(poll: nat)
    | Approve(id: nat, user: nat, now: int)
    | Deny(denial: nat, id: nat, user: nat, now: int)
    | Revoke(denial: nat, now: int)
    | RevokeAll(user: nat, now: int)
    | Sweep(now: int)

  /** Ids and codes are new; a poll is spent or abandoned once, and a denial finished once, by whoever began it. */
  predicate Enabled(s: State, st: Step) {
    match st
    case Start(id, hash, _, _, _) => forall r :: r in s.issued ==> r.id != id && r.hash != hash
    case Poll(poll, _, _, _) => poll !in s.polls
    case Redeem(poll, _) => poll in s.polls
    case Abandon(poll) => poll in s.polls
    case Deny(denial, _, _, _) => denial !in s.denials
    case Revoke(denial, _) => denial in s.denials
    case _ => true
  }

  function StartStep(s: State, r: Row): State {
    s.(rows := s.rows + [r], issued := s.issued + [r])
  }

  function PollStep(s: State, poll: nat, hash: nat, now: int, interval: int): State {
    var row := Match(s.rows, PollableIs(hash, now));
    s.(rows := Update(s.rows, PollableIs(hash, now), Polling(now)),
       touched := s.touched + (if row.Some? then [(row.value.id, now)] else []),
       polls := if AnswerOf(row, now, interval).Approved? then s.polls[poll := hash] else s.polls)
  }

  function RedeemStep(s: State, poll: nat, now: int): State
    requires poll in s.polls
  {
    var hash := s.polls[poll];
    var row := Match(s.rows, RedeemableIs(hash, now));
    var t := s.(polls := s.polls - {poll});
    if row.None? then t
    else t.(rows := Update(s.rows, RedeemableIs(hash, now), Spending(now)),
            sessions := s.sessions +
                        [Session(row.value.id, row.value.user.value, row.value.deviceId, row.value.deviceName)])
  }

  function ApproveStep(s: State, id: nat, user: nat, now: int): State {
    if Match(s.rows, UndecidedIs(id, now)).None? then s
    else s.(rows := Update(s.rows, UndecidedIs(id, now), Approving(user)),
            approvals := s.approvals + [(id, user)])
  }

  function DenyStep(s: State, denial: nat, id: nat, user: nat, now: int): State {
    if Match(s.rows, UndecidedIs(id, now)).None? then s.(denials := s.denials[denial := (id, user)])
    else s.(rows := Update(s.rows, UndecidedIs(id, now), Denying(now)),
            reports := s.reports + [(id, Stopped)])
  }

  function RevokeStep(s: State, denial: nat, now: int): State
    requires denial in s.denials
  {
    var (id, user) := s.denials[denial];
    var t := s.(denials := s.denials - {denial});
    if Match(s.rows, RevocableIs(id, user)).None? then t.(reports := s.reports + [(id, TooLate)])
    else t.(rows := Update(s.rows, RevocableIs(id, user), Spending(now)),
            reports := s.reports + [(id, Revoked)],
            revoked := s.revoked + {id})
  }

  function RevokeAllStep(s: State, user: nat, now: int): State {
    s.(rows := Update(s.rows, OwnedBy(user), Spending(now)),
       revoked := s.revoked + set r | r in s.rows && OwnedBy(user)(r) :: r.id)
  }

  function SweepStep(s: State, now: int): State {
    s.(rows := Remaining(s.rows, now), swept := s.swept + Expired(s.rows, now))
  }

  function Do(s: State, st: Step): State
    requires Enabled(s, st)
  {
    match st
    case Start(id, hash, deviceId, deviceName, expiresAt) =>
      StartStep(s, Row(id, hash, deviceId, deviceName, None, None, None, None, expiresAt))
    case Poll(poll, hash, now, interval) => PollStep(s, poll, hash, now, interval)
    case Redeem(poll, now) => RedeemStep(s, poll, now)
    case Abandon(poll) => s.(polls := s.polls - {poll})
    case Approve(id, user, now) => ApproveStep(s, id, user, now)
    case Deny(denial, id, user, now) => DenyStep(s, denial, id, user, now)
    case Revoke(denial, now) => RevokeStep(s, denial, now)
    case RevokeAll(user, now) => RevokeAllStep(s, user, now)
    case Sweep(now) => SweepStep(s, now)
  }

  predicate Legal(s: State, steps: seq<Step>)
    decreases |steps|
  {
    steps == [] || (Enabled(s, steps[0]) && Legal(Do(s, steps[0]), steps[1..]))
  }

  function Run(s: State, steps: seq<Step>): State
    requires Legal(s, steps)
    decreases |steps|
  {
    if steps == [] then s else Run(Do(s, steps[0]), steps[1..])
  }

  const Nothing := State([], [], map[], map[], [], [], [], [], {}, [])

  // ---------- what every step keeps ----------

  /** A row is one that was issued, with what came with it at issue, and two rows are never one code. */
  ghost predicate RowsIssued(s: State) {
    && (forall r :: r in s.rows ==>
          exists i :: i in s.issued && i.id == r.id && i.hash == r.hash &&
                      i.deviceId == r.deviceId && i.deviceName == r.deviceName)
    && Distinct(s.rows)
    && Distinct(s.issued)
  }

  ghost predicate Distinct(rows: seq<Row>) {
    forall i, j :: 0 <= i < j < |rows| ==> rows[i].id != rows[j].id && rows[i].hash != rows[j].hash
  }

  lemma DistinctCons(x: Row, rows: seq<Row>)
    requires Distinct(rows) && forall y :: y in rows ==> y.id != x.id && y.hash != x.hash
    ensures Distinct([x] + rows)
  {
    var r := [x] + rows;
    forall i, j | 0 <= i < j < |r| ensures r[i].id != r[j].id && r[i].hash != r[j].hash {
      assert r[j] == rows[j - 1] && rows[j - 1] in rows;
      assert i > 0 ==> r[i] == rows[i - 1];
    }
  }

  /** A row names the account that approved it, and a code is approved once. */
  ghost predicate ApprovalsOnce(s: State) {
    && (forall r :: r in s.rows ==> forall u :: r.user == Some(u) <==> (r.id, u) in s.approvals)
    && (forall i, j :: 0 <= i < j < |s.approvals| ==> s.approvals[i].0 != s.approvals[j].0)
    && (forall a :: a in s.approvals ==> IssuedId(s, a.0))
  }

  ghost predicate IssuedId(s: State, id: nat) {
    exists i :: i in s.issued && i.id == id
  }

  /** A session is of an approved code, for the account that approved it and the device it was issued to. */
  ghost predicate SessionsEarned(s: State) {
    && (forall x :: x in s.sessions ==>
          (x.code, x.user) in s.approvals &&
          exists i :: i in s.issued && i.id == x.code && i.deviceId == x.deviceId && i.deviceName == x.deviceName)
    && (forall r, x :: r in s.rows && x in s.sessions && x.code == r.id ==> r.consumedAt.Some?)
    && (forall i, j :: 0 <= i < j < |s.sessions| ==> s.sessions[i].code != s.sessions[j].code)
  }

  /** A denial that took effect has left nothing that can be redeemed, and nothing was. */
  ghost predicate DenialsHold(s: State) {
    forall d :: d in s.reports && !d.1.TooLate? ==>
      && (forall r :: r in s.rows && r.id == d.0 ==> r.deniedAt.Some? || r.consumedAt.Some?)
      && (forall x :: x in s.sessions ==> x.code != d.0)
      && IssuedId(s, d.0)
  }

  ghost predicate Inv(s: State) {
    RowsIssued(s) && ApprovalsOnce(s) && SessionsEarned(s) && DenialsHold(s)
  }

  /** An update that changes neither what a row was issued with nor who approved it, and never unspends or undenies. */
  ghost predicate Forward(a: seq<Row>, b: seq<Row>) {
    && |a| == |b|
    && forall i :: 0 <= i < |a| ==>
         && b[i].id == a[i].id && b[i].hash == a[i].hash
         && b[i].deviceId == a[i].deviceId && b[i].deviceName == a[i].deviceName
         && b[i].user == a[i].user
         && (a[i].deniedAt.Some? ==> b[i].deniedAt.Some?)
         && (a[i].consumedAt.Some? ==> b[i].consumedAt.Some?)
  }

  /** Every row of the later table is a row of the earlier one, moved forward. */
  ghost predicate CameFrom(r: Row, q: Row) {
    && q.id == r.id && q.hash == r.hash && q.deviceId == r.deviceId && q.deviceName == r.deviceName
    && q.user == r.user
    && (q.deniedAt.Some? ==> r.deniedAt.Some?)
    && (q.consumedAt.Some? ==> r.consumedAt.Some?)
  }

  lemma ForwardRow(a: seq<Row>, b: seq<Row>, r: Row) returns (q: Row)
    requires Forward(a, b) && r in b
    ensures q in a && CameFrom(r, q)
  {
    var i :| 0 <= i < |b| && b[i] == r;
    q := a[i];
  }

  lemma ForwardRows(s: State, rows: seq<Row>)
    requires RowsIssued(s) && Forward(s.rows, rows)
    ensures RowsIssued(s.(rows := rows))
  {
    forall r | r in rows
      ensures exists i :: i in s.issued && i.id == r.id && i.hash == r.hash &&
                          i.deviceId == r.deviceId && i.deviceName == r.deviceName
    {
      var q := ForwardRow(s.rows, rows, r);
    }
  }

  lemma ForwardApprovals(s: State, rows: seq<Row>)
    requires ApprovalsOnce(s) && Forward(s.rows, rows)
    ensures ApprovalsOnce(s.(rows := rows))
  {
    forall r, u | r in rows ensures r.user == Some(u) <==> (r.id, u) in s.approvals {
      var q := ForwardRow(s.rows, rows, r);
    }
    assert forall a :: a in s.approvals ==> IssuedId(s, a.0) && IssuedId(s.(rows := rows), a.0);
  }

  lemma ForwardSessions(s: State, rows: seq<Row>)
    requires SessionsEarned(s) && Forward(s.rows, rows)
    ensures SessionsEarned(s.(rows := rows))
  {
    forall r, x | r in rows && x in s.sessions && x.code == r.id ensures r.consumedAt.Some? {
      var q := ForwardRow(s.rows, rows, r);
    }
  }

  lemma ForwardDenials(s: State, rows: seq<Row>)
    requires DenialsHold(s) && Forward(s.rows, rows)
    ensures DenialsHold(s.(rows := rows))
  {
    forall d, r | d in s.reports && !d.1.TooLate? && r in rows && r.id == d.0
      ensures r.deniedAt.Some? || r.consumedAt.Some?
    {
      var q := ForwardRow(s.rows, rows, r);
    }
    assert forall d :: d in s.reports && !d.1.TooLate? ==> IssuedId(s, d.0) && IssuedId(s.(rows := rows), d.0);
  }

  lemma ForwardKeeps(s: State, rows: seq<Row>)
    requires Inv(s) && Forward(s.rows, rows)
    ensures Inv(s.(rows := rows))
  {
    hide RowsIssued, ApprovalsOnce, SessionsEarned, DenialsHold, Forward;
    ForwardRows(s, rows);
    ForwardApprovals(s, rows);
    ForwardSessions(s, rows);
    ForwardDenials(s, rows);
  }

  /** One row per id and per code, so a statement for one code touches one row. */
  lemma OneRow(s: State, a: Row, b: Row)
    requires RowsIssued(s) && a in s.rows && b in s.rows && (a.id == b.id || a.hash == b.hash)
    ensures a == b
  {
    var i :| 0 <= i < |s.rows| && s.rows[i] == a;
    var j :| 0 <= j < |s.rows| && s.rows[j] == b;
    assert i == j;
  }

  lemma StartKeeps(s: State, r: Row)
    requires Inv(s) && r.user.None?
    requires forall i :: i in s.issued ==> i.id != r.id && i.hash != r.hash
    ensures Inv(StartStep(s, r))
  {
    hide RowsIssued, ApprovalsOnce, SessionsEarned, DenialsHold;
    StartRows(s, r);
    StartApprovals(s, r);
    StartSessions(s, r);
    StartDenials(s, r);
  }

  lemma StartApprovals(s: State, r: Row)
    requires ApprovalsOnce(s) && r.user.None?
    requires forall i :: i in s.issued ==> i.id != r.id
    ensures ApprovalsOnce(StartStep(s, r))
  {
    var t := StartStep(s, r);
    assert forall i :: i in s.issued ==> i in t.issued;
    forall a | a in s.approvals ensures IssuedId(t, a.0) && a.0 != r.id {
      assert IssuedId(s, a.0);
    }
  }

  lemma StartSessions(s: State, r: Row)
    requires Inv(s)
    requires forall i :: i in s.issued ==> i.id != r.id
    ensures SessionsEarned(StartStep(s, r))
  {
    hide RowsIssued, ApprovalsOnce, DenialsHold;
    var t := StartStep(s, r);
    assert forall i :: i in s.issued ==> i in t.issued;
  }

  lemma StartDenials(s: State, r: Row)
    requires DenialsHold(s)
    requires forall i :: i in s.issued ==> i.id != r.id
    ensures DenialsHold(StartStep(s, r))
  {
    var t := StartStep(s, r);
    assert forall i :: i in s.issued ==> i in t.issued;
    forall d | d in s.reports && !d.1.TooLate? ensures IssuedId(t, d.0) && d.0 != r.id {
      assert IssuedId(s, d.0);
    }
  }

  lemma StartRows(s: State, r: Row)
    requires Inv(s)
    requires forall i :: i in s.issued ==> i.id != r.id && i.hash != r.hash
    ensures RowsIssued(StartStep(s, r))
  {
    var t := StartStep(s, r);
    assert forall i :: i in s.issued ==> i in t.issued;
    assert r in t.issued;
    assert forall i :: 0 <= i < |s.rows| ==> s.rows[i] in s.rows;
    assert forall i :: 0 <= i < |s.issued| ==> s.issued[i] in s.issued;
  }

  lemma SweepKeeps(s: State, now: int)
    requires Inv(s)
    ensures Inv(SweepStep(s, now))
  {
    hide Remaining, Expired;
    var t := SweepStep(s, now);
    RemainingDistinct(s.rows, now);
    assert RowsIssued(t);
    assert ApprovalsOnce(t) by {
      assert forall a :: a in s.approvals ==> IssuedId(s, a.0) && IssuedId(t, a.0);
    }
    assert DenialsHold(t) by {
      assert forall d :: d in s.reports && !d.1.TooLate? ==> IssuedId(s, d.0) && IssuedId(t, d.0);
    }
  }

  lemma {:induction false} RemainingDistinct(rows: seq<Row>, now: int)
    requires Distinct(rows)
    ensures Distinct(Remaining(rows, now))
    decreases |rows|
  {
    if rows != [] {
      assert Distinct(rows[1..]);
      RemainingDistinct(rows[1..], now);
      var tail := Remaining(rows[1..], now);
      forall x | x in tail ensures x.id != rows[0].id && x.hash != rows[0].hash {
        var k :| 0 <= k < |rows[1..]| && rows[1..][k] == x;
        assert rows[k + 1] == x;
      }
      DistinctCons(rows[0], tail);
      assert [] + tail == tail;
    }
  }

  /** A code that has not been spent has no session. */
  lemma NotSpentYet(s: State, r: Row)
    requires Inv(s) && r in s.rows && r.consumedAt.None?
    ensures forall x :: x in s.sessions ==> x.code != r.id
  {
    hide RowsIssued, ApprovalsOnce, DenialsHold;
  }

  lemma RowIsIssued(s: State, r: Row)
    requires Inv(s) && r in s.rows
    ensures IssuedId(s, r.id)
    ensures exists i :: i in s.issued && i.id == r.id && i.deviceId == r.deviceId && i.deviceName == r.deviceName
    ensures r.user.Some? ==> (r.id, r.user.value) in s.approvals
  {
    hide SessionsEarned, DenialsHold;
  }

  lemma RedeemKeeps(s: State, poll: nat, now: int)
    requires Inv(s) && poll in s.polls
    ensures Inv(RedeemStep(s, poll, now))
  {
    hide RowsIssued, ApprovalsOnce, SessionsEarned, DenialsHold;
    var hash := s.polls[poll];
    var row := Match(s.rows, RedeemableIs(hash, now));
    var t := RedeemStep(s, poll, now);
    if row.Some? {
      ForwardKeeps(s, t.rows);
      var u := s.(rows := t.rows);
      var x := Session(row.value.id, row.value.user.value, row.value.deviceId, row.value.deviceName);
      forall r | r in t.rows && r.id == x.code ensures r.consumedAt.Some? {
        var i :| 0 <= i < |t.rows| && t.rows[i] == r;
        OneRow(s, s.rows[i], row.value);
      }
      NotSpentYet(s, row.value);
      RowIsIssued(s, row.value);
      NoDenialOf(s, row.value);
      AddSession(u, t, x);
    } else {
      SameLog(s, t);
    }
  }

  /** What is in flight is no part of the promise. */
  lemma SameLog(s: State, t: State)
    requires Inv(s)
    requires t == s.(polls := t.polls, denials := t.denials, swept := t.swept, revoked := t.revoked,
                     touched := t.touched)
    ensures Inv(t)
  {
    assert RowsIssued(t);
    assert ApprovalsOnce(t) by {
      assert forall a :: a in s.approvals ==> IssuedId(s, a.0) && IssuedId(t, a.0);
    }
    assert DenialsHold(t) by {
      assert forall d :: d in s.reports && !d.1.TooLate? ==> IssuedId(s, d.0) && IssuedId(t, d.0);
    }
  }

  /** A row that can be redeemed has not been denied to any effect. */
  lemma NoDenialOf(s: State, r: Row)
    requires Inv(s) && r in s.rows && r.deniedAt.None? && r.consumedAt.None?
    ensures forall d :: d in s.reports && !d.1.TooLate? ==> d.0 != r.id
  {
  }

  lemma AddSession(u: State, t: State, x: Session)
    requires Inv(u) && t == u.(polls := t.polls, sessions := u.sessions + [x])
    requires (x.code, x.user) in u.approvals
    requires exists i :: i in u.issued && i.id == x.code && i.deviceId == x.deviceId && i.deviceName == x.deviceName
    requires forall r :: r in u.rows && r.id == x.code ==> r.consumedAt.Some?
    requires forall y :: y in u.sessions ==> y.code != x.code
    requires forall d :: d in u.reports && !d.1.TooLate? ==> d.0 != x.code
    ensures Inv(t)
  {
    assert forall i :: 0 <= i < |u.sessions| ==> u.sessions[i] in u.sessions;
    assert SessionsEarned(t);
    assert DenialsHold(t);
  }

  lemma ApproveKeeps(s: State, id: nat, user: nat, now: int)
    requires Inv(s)
    ensures Inv(ApproveStep(s, id, user, now))
  {
    hide RowsIssued, ApprovalsOnce, SessionsEarned, DenialsHold;
    var row := Match(s.rows, UndecidedIs(id, now));
    if row.Some? {
      var t := ApproveStep(s, id, user, now);
      forall i | 0 <= i < |s.rows|
        ensures t.rows[i] == if s.rows[i].id == id then s.rows[i].(user := Some(user)) else s.rows[i]
      {
        if s.rows[i].id == id {
          OneRow(s, s.rows[i], row.value);
        }
      }
      NotApprovedYet(s, row.value);
      RowIsIssued(s, row.value);
      ApprovedRows(s, t);
      ApprovedOnce(s, t, id, user);
      ApprovedLog(s, t, id, user);
    }
  }

  lemma ApprovedLog(s: State, t: State, id: nat, user: nat)
    requires Inv(s) && t == s.(rows := t.rows, approvals := s.approvals + [(id, user)])
    requires forall r :: r in t.rows ==> exists q :: q in s.rows && r == q.(user := r.user)
    ensures SessionsEarned(t) && DenialsHold(t)
  {
    hide RowsIssued, ApprovalsOnce;
    forall r, x | r in t.rows && x in s.sessions && x.code == r.id ensures r.consumedAt.Some? {
      var q :| q in s.rows && r == q.(user := r.user);
    }
    forall d, r | d in s.reports && !d.1.TooLate? && r in t.rows && r.id == d.0
      ensures r.deniedAt.Some? || r.consumedAt.Some?
    {
      var q :| q in s.rows && r == q.(user := r.user);
    }
    assert forall d :: d in s.reports && !d.1.TooLate? ==> IssuedId(s, d.0) && IssuedId(t, d.0);
  }

  lemma NotApprovedYet(s: State, r: Row)
    requires Inv(s) && r in s.rows && r.user.None?
    ensures forall a :: a in s.approvals ==> a.0 != r.id
  {
    hide RowsIssued, SessionsEarned, DenialsHold;
    assert forall u :: r.user == Some(u) <==> (r.id, u) in s.approvals;
    forall a | a in s.approvals ensures a.0 != r.id {
      assert a == (a.0, a.1);
    }
  }

  lemma ApprovedRows(s: State, t: State)
    requires RowsIssued(s) && t.issued == s.issued && |t.rows| == |s.rows|
    requires forall i :: 0 <= i < |s.rows| ==> t.rows[i] == s.rows[i].(user := t.rows[i].user)
    ensures RowsIssued(t)
    ensures forall r :: r in t.rows ==> exists q :: q in s.rows && r == q.(user := r.user)
  {
    forall r | r in t.rows ensures exists q :: q in s.rows && r == q.(user := r.user) {
      var i :| 0 <= i < |t.rows| && t.rows[i] == r;
      assert s.rows[i] in s.rows;
    }
  }

  lemma ApprovedOnce(s: State, t: State, id: nat, user: nat)
    requires Inv(s) && t.issued == s.issued && t.approvals == s.approvals + [(id, user)] && |t.rows| == |s.rows|
    requires IssuedId(s, id) && forall a :: a in s.approvals ==> a.0 != id
    requires forall i :: 0 <= i < |s.rows| ==>
               t.rows[i] == if s.rows[i].id == id then s.rows[i].(user := Some(user)) else s.rows[i]
    ensures ApprovalsOnce(t)
  {
    hide RowsIssued, SessionsEarned, DenialsHold;
    assert forall i :: 0 <= i < |s.approvals| ==> s.approvals[i] in s.approvals;
    assert forall a :: a in s.approvals ==> IssuedId(s, a.0) && IssuedId(t, a.0);
    assert IssuedId(t, id);
    forall r, u | r in t.rows ensures r.user == Some(u) <==> (r.id, u) in t.approvals {
      var i :| 0 <= i < |t.rows| && t.rows[i] == r;
      assert s.rows[i] in s.rows;
    }
  }

  lemma DenyKeeps(s: State, denial: nat, id: nat, user: nat, now: int)
    requires Inv(s)
    ensures Inv(DenyStep(s, denial, id, user, now))
  {
    hide RowsIssued, ApprovalsOnce, SessionsEarned, DenialsHold;
    var row := Match(s.rows, UndecidedIs(id, now));
    var t := DenyStep(s, denial, id, user, now);
    if row.Some? {
      ForwardKeeps(s, t.rows);
      forall r | r in t.rows && r.id == id ensures r.deniedAt.Some? {
        var i :| 0 <= i < |t.rows| && t.rows[i] == r;
        OneRow(s, s.rows[i], row.value);
      }
      NotSpentYet(s, row.value);
      RowIsIssued(s, row.value);
      AddReport(s.(rows := t.rows), t, id, Stopped);
    } else {
      SameLog(s, t);
    }
  }

  lemma RevokeKeeps(s: State, denial: nat, now: int)
    requires Inv(s) && denial in s.denials
    ensures Inv(RevokeStep(s, denial, now))
  {
    hide RowsIssued, ApprovalsOnce, SessionsEarned, DenialsHold;
    var (id, user) := s.denials[denial];
    var row := Match(s.rows, RevocableIs(id, user));
    var t := RevokeStep(s, denial, now);
    if row.Some? {
      ForwardKeeps(s, t.rows);
      forall r | r in t.rows && r.id == id ensures r.consumedAt.Some? {
        var i :| 0 <= i < |t.rows| && t.rows[i] == r;
        OneRow(s, s.rows[i], row.value);
      }
      NotSpentYet(s, row.value);
      RowIsIssued(s, row.value);
      SameLog(s.(rows := t.rows), s.(rows := t.rows, revoked := t.revoked));
      AddReport(s.(rows := t.rows, revoked := t.revoked), t, id, Revoked);
    } else {
      AddTooLate(s, t, id);
    }
  }

  lemma AddTooLate(s: State, t: State, id: nat)
    requires Inv(s) && t == s.(denials := t.denials, reports := s.reports + [(id, TooLate)])
    ensures Inv(t)
  {
    SameLog(s, s.(denials := t.denials));
    assert RowsIssued(t);
    assert ApprovalsOnce(t) by {
      assert forall a :: a in s.approvals ==> IssuedId(s, a.0) && IssuedId(t, a.0);
    }
    assert DenialsHold(t) by {
      assert forall d :: d in s.reports && !d.1.TooLate? ==> IssuedId(s, d.0) && IssuedId(t, d.0);
    }
  }

  lemma AddReport(u: State, t: State, id: nat, outcome: DenyOutcome)
    requires Inv(u) && t == u.(denials := t.denials, reports := u.reports + [(id, outcome)])
    requires forall r :: r in u.rows && r.id == id ==> r.deniedAt.Some? || r.consumedAt.Some?
    requires forall x :: x in u.sessions ==> x.code != id
    requires IssuedId(u, id)
    ensures Inv(t)
  {
    assert RowsIssued(t);
    assert ApprovalsOnce(t) by {
      assert forall a :: a in u.approvals ==> IssuedId(u, a.0) && IssuedId(t, a.0);
    }
    assert IssuedId(t, id);
    assert DenialsHold(t) by {
      assert forall d :: d in u.reports && !d.1.TooLate? ==> IssuedId(u, d.0) && IssuedId(t, d.0);
    }
  }

  lemma PollKeeps(s: State, poll: nat, hash: nat, now: int, interval: int)
    requires Inv(s)
    ensures Inv(PollStep(s, poll, hash, now, interval))
  {
    hide RowsIssued, ApprovalsOnce, SessionsEarned, DenialsHold;
    var t := PollStep(s, poll, hash, now, interval);
    ForwardKeeps(s, t.rows);
    SameLog(s.(rows := t.rows), t);
  }

  lemma RevokeAllKeeps(s: State, user: nat, now: int)
    requires Inv(s)
    ensures Inv(RevokeAllStep(s, user, now))
  {
    hide RowsIssued, ApprovalsOnce, SessionsEarned, DenialsHold;
    ForwardKeeps(s, Update(s.rows, OwnedBy(user), Spending(now)));
    SameLog(s.(rows := Update(s.rows, OwnedBy(user), Spending(now))), RevokeAllStep(s, user, now));
  }

  lemma StepKeeps(s: State, st: Step)
    requires Inv(s) && Enabled(s, st)
    ensures Inv(Do(s, st))
  {
    hide Inv, StartStep, PollStep, RedeemStep, ApproveStep, DenyStep, RevokeStep, RevokeAllStep, SweepStep, Update;
    match st
    case Start(id, hash, deviceId, deviceName, expiresAt) =>
      StartKeeps(s, Row(id, hash, deviceId, deviceName, None, None, None, None, expiresAt));
    case Poll(poll, hash, now, interval) => PollKeeps(s, poll, hash, now, interval);
    case Redeem(poll, now) => RedeemKeeps(s, poll, now);
    case Abandon(poll) => SameLog(s, Do(s, st));
    case Approve(id, user, now) => ApproveKeeps(s, id, user, now);
    case Deny(denial, id, user, now) => DenyKeeps(s, denial, id, user, now);
    case Revoke(denial, now) => RevokeKeeps(s, denial, now);
    case RevokeAll(user, now) => RevokeAllKeeps(s, user, now);
    case Sweep(now) => SweepKeeps(s, now);
  }

  lemma {:induction false} RunKeeps(s: State, steps: seq<Step>)
    requires Inv(s) && Legal(s, steps)
    ensures Inv(Run(s, steps))
    decreases |steps|
  {
    hide Inv, Do;
    if steps != [] {
      StepKeeps(s, steps[0]);
      RunKeeps(Do(s, steps[0]), steps[1..]);
    }
  }

  // ---------- what is promised, over every run ----------

  /**
   However polls, approvals, denials, revocations and sweeps are interleaved: one session at most comes of a code,
   and it carries the one account that approved it and the device the code was issued to.
   */
  lemma OneSessionPerCode(steps: seq<Step>)
    requires Legal(Nothing, steps)
    ensures var s := Run(Nothing, steps);
            && (forall i, j :: 0 <= i < j < |s.sessions| ==> s.sessions[i].code != s.sessions[j].code)
            && (forall i, j :: 0 <= i < j < |s.approvals| ==> s.approvals[i].0 != s.approvals[j].0)
            && (forall x :: x in s.sessions ==>
                  (x.code, x.user) in s.approvals &&
                  exists i :: i in s.issued && i.id == x.code && i.deviceId == x.deviceId &&
                              i.deviceName == x.deviceName)
  {
    RunKeeps(Nothing, steps);
  }

  lemma {:induction false} ReportsStay(s: State, steps: seq<Step>)
    requires Legal(s, steps)
    ensures forall d :: d in s.reports ==> d in Run(s, steps).reports
    decreases |steps|
  {
    if steps != [] {
      ReportsStay(Do(s, steps[0]), steps[1..]);
    }
  }

  /**
   Once a denial has said it stopped or revoked an authorization, no session comes of it: not then, not later, and
   not for a poll that had already seen the approval.
   */
  lemma DeniedIsDenied(before: seq<Step>, after: seq<Step>, id: nat, outcome: DenyOutcome)
    requires Legal(Nothing, before) && Legal(Run(Nothing, before), after)
    requires (id, outcome) in Run(Nothing, before).reports && !outcome.TooLate?
    ensures forall x :: x in Run(Run(Nothing, before), after).sessions ==> x.code != id
  {
    RunKeeps(Nothing, before);
    RunKeeps(Run(Nothing, before), after);
    ReportsStay(Run(Nothing, before), after);
  }

  /**
   What Deny reports, by its cases, when nothing happens between its two statements: Stopped exactly when the code was
   still to be decided, Revoked exactly when it was approved by the same account and not spent, and TooLate otherwise.
   */
  lemma DenyReports(s: State, denial: nat, id: nat, user: nat, now: int)
    requires Inv(s) && denial !in s.denials
    ensures var first := Do(s, Deny(denial, id, user, now));
            var undecided := exists r :: r in s.rows && r.id == id && Undecided(r, now);
            var revocable := exists r :: r in s.rows && r.id == id && r.user == Some(user) && r.consumedAt.None?;
            && (undecided <==> first.reports == s.reports + [(id, Stopped)])
            && (undecided <==> denial !in first.denials)
            && (!undecided ==>
                  var second := Do(first, Revoke(denial, now));
                  second.reports == s.reports + [(id, if revocable then Revoked else TooLate)])
  {
    var row := Match(s.rows, UndecidedIs(id, now));
    if row.None? {
      var first := Do(s, Deny(denial, id, user, now));
      assert |s.reports| != |s.reports + [(id, Stopped)]|;
      forall r | r in s.rows && r.id == id ensures !Undecided(r, now) {
        assert UndecidedIs(id, now)(r) == Undecided(r, now);
      }
      var again := Match(s.rows, RevocableIs(id, user));
      if again.None? {
        forall r | r in s.rows && r.id == id ensures !(r.user == Some(user) && r.consumedAt.None?) {
          assert !RevocableIs(id, user)(r);
        }
      }
    }
  }

  // ---------- what a denial that comes too late means ----------

  predicate SignedIn(s: State, id: nat) {
    exists x :: x in s.sessions && x.code == id
  }

  ghost predicate HasRow(s: State, id: nat) {
    exists r :: (r in s.rows || r in s.swept) && r.id == id
  }

  /**
   A code is spent by signing somebody in or by a revocation, and never by both; every code has its row, or had it.
   */
  ghost predicate SpentOneWay(s: State) {
    && (forall r :: r in s.rows || r in s.swept ==>
          IssuedId(s, r.id) && (r.consumedAt.Some? <==> SignedIn(s, r.id) || r.id in s.revoked))
    && (forall x :: x in s.sessions ==> x.code !in s.revoked)
    && (forall i :: i in s.issued ==> HasRow(s, i.id))
    && (forall r, q :: r in s.swept && q in s.rows ==> r.id != q.id)
  }

  lemma SignedInIsIssued(s: State, id: nat)
    requires Inv(s) && SignedIn(s, id)
    ensures IssuedId(s, id)
  {
    hide RowsIssued, ApprovalsOnce, DenialsHold;
  }

  lemma StartSpends(s: State, r: Row)
    requires Inv(s) && SpentOneWay(s) && r.consumedAt.None? && (forall i :: i in s.issued ==> i.id != r.id)
    requires forall id :: id in s.revoked ==> IssuedId(s, id)
    ensures SpentOneWay(StartStep(s, r))
  {
    hide RowsIssued, ApprovalsOnce, SessionsEarned, DenialsHold;
    var t := StartStep(s, r);
    assert r in t.rows && r in t.issued;
    forall q | q in t.rows || q in t.swept
      ensures IssuedId(t, q.id) && (q.consumedAt.Some? <==> SignedIn(t, q.id) || q.id in t.revoked)
    {
      if q == r {
        if SignedIn(s, r.id) {
          SignedInIsIssued(s, r.id);
        }
      } else {
        var i :| i in s.issued && i.id == q.id;
        assert i in t.issued;
        assert SignedIn(t, q.id) == SignedIn(s, q.id);
      }
    }
    forall i | i in t.issued
      ensures HasRow(t, i.id)
    {
      if i != r {
        var q :| (q in s.rows || q in s.swept) && q.id == i.id;
        assert q in t.rows || q in t.swept;
      }
    }
    forall a, b | a in t.swept && b in t.rows
      ensures a.id != b.id
    {
      var i :| i in s.issued && i.id == a.id;
    }
  }

  /** An update of rows that leaves their ids, and after which exactly the codes it adds are spent besides. */
  lemma UpdateSpends(s: State, t: State, spent: set<nat>)
    requires SpentOneWay(s) && |t.rows| == |s.rows| && t.swept == s.swept && t.issued == s.issued
    requires forall i :: 0 <= i < |s.rows| ==>
               && t.rows[i].id == s.rows[i].id
               && (t.rows[i].consumedAt.Some? <==> s.rows[i].consumedAt.Some? || s.rows[i].id in spent)
    requires forall id :: id in spent ==> forall r :: r in s.swept ==> r.id != id
    requires forall id :: SignedIn(t, id) || id in t.revoked <==> SignedIn(s, id) || id in s.revoked || id in spent
    requires forall x :: x in t.sessions ==> x.code !in t.revoked
    ensures SpentOneWay(t)
  {
    forall r | r in t.rows || r in t.swept
      ensures IssuedId(t, r.id) && (r.consumedAt.Some? <==> SignedIn(t, r.id) || r.id in t.revoked)
    {
      if r in t.rows {
        var i :| 0 <= i < |t.rows| && t.rows[i] == r;
        assert s.rows[i] in s.rows;
        assert IssuedId(s, r.id);
      } else {
        assert IssuedId(s, r.id);
      }
    }
    forall i | i in t.issued
      ensures HasRow(t, i.id)
    {
      var q :| (q in s.rows || q in s.swept) && q.id == i.id;
      if q in s.rows {
        var k :| 0 <= k < |s.rows| && s.rows[k] == q;
        assert t.rows[k] in t.rows;
      }
    }
    forall a, b | a in t.swept && b in t.rows
      ensures a.id != b.id
    {
      var i :| 0 <= i < |t.rows| && t.rows[i] == b;
      assert s.rows[i] in s.rows;
    }
  }

  lemma SweepSpends(s: State, now: int)
    requires SpentOneWay(s) && RowsIssued(s)
    ensures SpentOneWay(SweepStep(s, now))
  {
    hide Remaining, Expired;
    var t := SweepStep(s, now);
    forall r | r in t.rows || r in t.swept
      ensures IssuedId(t, r.id) && (r.consumedAt.Some? <==> SignedIn(t, r.id) || r.id in t.revoked)
    {
      assert r in s.rows || r in s.swept;
      assert IssuedId(s, r.id) && SignedIn(s, r.id) == SignedIn(t, r.id);
    }
    forall i | i in t.issued
      ensures HasRow(t, i.id)
    {
      var q :| (q in s.rows || q in s.swept) && q.id == i.id;
      assert q in t.rows || q in t.swept;
    }
    forall a, b | a in t.swept && b in t.rows
      ensures a.id != b.id
    {
      if a in s.rows && a.id == b.id {
        OneRow(s, a, b);
      }
    }
  }

  /** Everything known of the state, for whole runs. */
  ghost predicate Settled(s: State) {
    Inv(s) && SpentOneWay(s) && forall id :: id in s.revoked ==> IssuedId(s, id)
  }

  lemma SessionsOnly(s: State, t: State)
    requires t.sessions == s.sessions
    ensures forall id :: SignedIn(t, id) == SignedIn(s, id)
  {
  }

  lemma RedeemSpends(s: State, poll: nat, now: int)
    requires Settled(s) && poll in s.polls
    ensures SpentOneWay(RedeemStep(s, poll, now))
  {
    hide ApprovalsOnce, SessionsEarned, DenialsHold, Distinct;
    var hash := s.polls[poll];
    var row := Match(s.rows, RedeemableIs(hash, now));
    var t := RedeemStep(s, poll, now);
    if row.None? {
      SessionsOnly(s, t);
      UpdateSpends(s, t, {});
    } else {
      var id := row.value.id;
      forall i | 0 <= i < |s.rows|
        ensures RedeemableIs(hash, now)(s.rows[i]) <==> s.rows[i].id == id
      {
        if RedeemableIs(hash, now)(s.rows[i]) || s.rows[i].id == id {
          OneRow(s, s.rows[i], row.value);
        }
      }
      assert t.sessions[|s.sessions|].code == id;
      forall k
        ensures SignedIn(t, k) <==> SignedIn(s, k) || k == id
      {
        assert t.sessions[|s.sessions|] in t.sessions;
        assert forall x :: x in s.sessions ==> x in t.sessions;
      }
      UpdateSpends(s, t, {id});
    }
  }

  lemma RevokeSpends(s: State, denial: nat, now: int)
    requires Settled(s) && denial in s.denials
    ensures SpentOneWay(RevokeStep(s, denial, now))
  {
    hide ApprovalsOnce, SessionsEarned, DenialsHold, Distinct;
    var (id, user) := s.denials[denial];
    var row := Match(s.rows, RevocableIs(id, user));
    var t := RevokeStep(s, denial, now);
    SessionsOnly(s, t);
    if row.None? {
      UpdateSpends(s, t, {});
    } else {
      forall i | 0 <= i < |s.rows|
        ensures RevocableIs(id, user)(s.rows[i]) <==> s.rows[i].id == id
      {
        if s.rows[i].id == id {
          OneRow(s, s.rows[i], row.value);
        }
      }
      assert !SignedIn(s, id);
      UpdateSpends(s, t, {id});
    }
  }

  lemma RevokeAllSpends(s: State, user: nat, now: int)
    requires Settled(s)
    ensures SpentOneWay(RevokeAllStep(s, user, now))
    ensures forall id :: id in RevokeAllStep(s, user, now).revoked ==> IssuedId(s, id)
  {
    hide ApprovalsOnce, SessionsEarned, DenialsHold, Distinct;
    var t := RevokeAllStep(s, user, now);
    var spent := set r | r in s.rows && OwnedBy(user)(r) :: r.id;
    forall i | 0 <= i < |s.rows|
      ensures OwnedBy(user)(s.rows[i]) || s.rows[i].consumedAt.Some? <==>
              s.rows[i].consumedAt.Some? || s.rows[i].id in spent
    {
      if s.rows[i].id in spent {
        var r :| r in s.rows && OwnedBy(user)(r) && r.id == s.rows[i].id;
        OneRow(s, s.rows[i], r);
      }
    }
    SessionsOnly(s, t);
    forall x | x in t.sessions
      ensures x.code !in spent
    {
      assert SignedIn(s, x.code);
    }
    UpdateSpends(s, t, spent);
  }

  lemma StepSettles(s: State, st: Step)
    requires Settled(s) && Enabled(s, st)
    ensures Settled(Do(s, st))
  {
    hide Inv;
    StepKeeps(s, st);
    StepSpends(s, st);
    RevokedIsIssued(s, st);
  }

  lemma RevokedIsIssued(s: State, st: Step)
    requires Settled(s) && Enabled(s, st)
    ensures forall id :: id in Do(s, st).revoked ==> IssuedId(Do(s, st), id)
  {
    hide Inv, Update;
    assert forall i :: i in s.issued ==> i in Do(s, st).issued;
    assert forall id :: IssuedId(s, id) ==> IssuedId(Do(s, st), id);
    match st
    case Revoke(denial, now) =>
    case RevokeAll(user, now) => RevokeAllSpends(s, user, now);
    case _ =>
  }

  lemma StepSpends(s: State, st: Step)
    requires Settled(s) && Enabled(s, st)
    ensures SpentOneWay(Do(s, st))
  {
    hide RowsIssued, ApprovalsOnce, SessionsEarned, DenialsHold, SpentOneWay;
    match st
    case Start(id, hash, deviceId, deviceName, expiresAt) =>
      StartSpends(s, Row(id, hash, deviceId, deviceName, None, None, None, None, expiresAt));
    case Redeem(poll, now) => RedeemSpends(s, poll, now);
    case Revoke(denial, now) => RevokeSpends(s, denial, now);
    case RevokeAll(user, now) => RevokeAllSpends(s, user, now);
    case Sweep(now) => SweepSpends(s, now);
    case _ => OthersSpend(s, st);
  }

  lemma OthersSpend(s: State, st: Step)
    requires Settled(s) && Enabled(s, st) && (st.Poll? || st.Abandon? || st.Approve? || st.Deny?)
    ensures SpentOneWay(Do(s, st))
  {
    hide Inv;
    SessionsOnly(s, Do(s, st));
    assert forall x :: x in s.sessions ==> x.code !in s.revoked;
    hide SpentOneWay;
    UpdateSpends(s, Do(s, st), {});
  }

  lemma {:induction false} RunSettles(s: State, steps: seq<Step>)
    requires Settled(s) && Legal(s, steps)
    ensures Settled(Run(s, steps))
    decreases |steps|
  {
    hide Settled, Do;
    if steps != [] {
      StepSettles(s, steps[0]);
      RunSettles(Do(s, steps[0]), steps[1..]);
    }
  }

  /**
   Over every run: when a denial reports that it came too late, somebody is signed in if and only if the code's row, or
   the row as it was swept, is spent and no revocation spent it. In every other case, a code that was never issued,
   denied, left to expire, approved by another account or revoked, nobody is.
   */
  lemma TooLateMeansSignedInIff(steps: seq<Step>, denial: nat, now: int)
    requires Legal(Nothing, steps) && denial in Run(Nothing, steps).denials
    requires var s := Run(Nothing, steps);
             Do(s, Revoke(denial, now)).reports == s.reports + [(s.denials[denial].0, TooLate)]
    ensures var s := Run(Nothing, steps);
            var id := s.denials[denial].0;
            SignedIn(Do(s, Revoke(denial, now)), id) <==>
              exists r :: (r in s.rows || r in s.swept) && r.id == id && r.consumedAt.Some? && id !in s.revoked
  {
    var s := Run(Nothing, steps);
    RunSettles(Nothing, steps);
    SessionsOnly(s, Do(s, Revoke(denial, now)));
    var id := s.denials[denial].0;
    if SignedIn(s, id) {
      SignedInIsIssued(s, id);
      assert HasRow(s, id);
    }
  }

  // ---------- what a poll is told ----------

  /** When the last poll touched a code. */
  function LastTouch(touched: seq<(nat, int)>, id: nat): Option<int> {
    if touched == [] then None
    else if touched[|touched| - 1].0 == id then Some(touched[|touched| - 1].1)
    else LastTouch(touched[..|touched| - 1], id)
  }

  lemma {:induction false} TouchedIsThere(touched: seq<(nat, int)>, id: nat)
    requires forall t :: t in touched ==> t.0 != id
    ensures LastTouch(touched, id).None?
  {
    if touched != [] {
      TouchedIsThere(touched[..|touched| - 1], id);
    }
  }

  lemma TouchNext(touched: seq<(nat, int)>, id: nat, now: int)
    ensures forall k :: LastTouch(touched + [(id, now)], k) == if k == id then Some(now) else LastTouch(touched, k)
  {
    var all := touched + [(id, now)];
    assert all[..|all| - 1] == touched;
  }

  /** A row has on it what the log has of its code: the last poll, and a denial that stopped it. */
  ghost predicate RowLogged(s: State, r: Row) {
    && r.lastPolledAt == LastTouch(s.touched, r.id)
    && (r.deniedAt.Some? <==> (r.id, Stopped) in s.reports)
    && (r.deniedAt.Some? ==> r.user.None?)
  }

  ghost predicate Logged(s: State) {
    && (forall r :: r in s.rows ==> RowLogged(s, r))
    && (forall t :: t in s.touched ==> IssuedId(s, t.0))
  }

  lemma StoppedIsIssued(s: State, id: nat)
    requires DenialsHold(s)
    ensures (id, Stopped) in s.reports ==> IssuedId(s, id)
  {
  }

  lemma StartLogs(s: State, r: Row)
    requires Inv(s) && Logged(s) && (forall i :: i in s.issued ==> i.id != r.id)
    requires r.lastPolledAt.None? && r.deniedAt.None?
    ensures Logged(StartStep(s, r))
  {
    hide RowsIssued, ApprovalsOnce, SessionsEarned;
    var t := StartStep(s, r);
    assert forall i :: i in s.issued ==> i in t.issued;
    forall x | x in s.touched
      ensures IssuedId(t, x.0) && x.0 != r.id
    {
      assert IssuedId(s, x.0);
    }
    TouchedIsThere(s.touched, r.id);
    StoppedIsIssued(s, r.id);
    forall q | q in t.rows
      ensures RowLogged(t, q)
    {
      assert q == r || RowLogged(s, q);
    }
  }

  /** An update that leaves a row's last poll and its denial, and the log of both. */
  lemma SameLogs(s: State, t: State)
    requires Logged(s) && |t.rows| == |s.rows| && t.touched == s.touched && t.issued == s.issued
    requires forall id :: (id, Stopped) in t.reports <==> (id, Stopped) in s.reports
    requires forall i :: 0 <= i < |s.rows| ==>
               && t.rows[i].id == s.rows[i].id && t.rows[i].lastPolledAt == s.rows[i].lastPolledAt
               && t.rows[i].deniedAt == s.rows[i].deniedAt
               && (t.rows[i].user == s.rows[i].user || s.rows[i].deniedAt.None?)
    ensures Logged(t)
  {
    forall r | r in t.rows
      ensures RowLogged(t, r)
    {
      var i :| 0 <= i < |t.rows| && t.rows[i] == r;
      assert RowLogged(s, s.rows[i]);
    }
    forall x | x in t.touched
      ensures IssuedId(t, x.0)
    {
      assert IssuedId(s, x.0);
    }
  }

  lemma PollLogs(s: State, poll: nat, hash: nat, now: int, interval: int)
    requires Inv(s) && Logged(s)
    ensures Logged(PollStep(s, poll, hash, now, interval))
  {
    hide ApprovalsOnce, SessionsEarned, DenialsHold, Distinct;
    var t := PollStep(s, poll, hash, now, interval);
    var row := Match(s.rows, PollableIs(hash, now));
    if row.None? {
      assert t.touched == s.touched;
      SameLogs(s, t);
    } else {
      TouchNext(s.touched, row.value.id, now);
      forall r | r in t.rows
        ensures RowLogged(t, r)
      {
        var i :| 0 <= i < |t.rows| && t.rows[i] == r;
        assert RowLogged(s, s.rows[i]);
        if PollableIs(hash, now)(s.rows[i]) || s.rows[i].id == row.value.id {
          OneRow(s, s.rows[i], row.value);
        }
      }
      RowIsIssued(s, row.value);
      forall x | x in t.touched
        ensures IssuedId(t, x.0)
      {
        assert x == (row.value.id, now) || IssuedId(s, x.0);
        assert IssuedId(s, x.0);
      }
    }
  }

  lemma DenyLogs(s: State, denial: nat, id: nat, user: nat, now: int)
    requires Inv(s) && Logged(s)
    ensures Logged(DenyStep(s, denial, id, user, now))
  {
    hide ApprovalsOnce, SessionsEarned, DenialsHold, Distinct;
    var t := DenyStep(s, denial, id, user, now);
    var row := Match(s.rows, UndecidedIs(id, now));
    if row.None? {
      SameLogs(s, t);
    } else {
      forall r | r in t.rows
        ensures RowLogged(t, r)
      {
        var i :| 0 <= i < |t.rows| && t.rows[i] == r;
        assert RowLogged(s, s.rows[i]);
        if s.rows[i].id == id {
          OneRow(s, s.rows[i], row.value);
        }
      }
      assert forall x :: x in t.touched ==> IssuedId(s, x.0) && IssuedId(t, x.0);
    }
  }

  lemma SweepLogs(s: State, now: int)
    requires Logged(s)
    ensures Logged(SweepStep(s, now))
  {
    hide Remaining, Expired;
    var t := SweepStep(s, now);
    forall r | r in t.rows
      ensures RowLogged(t, r)
    {
      assert RowLogged(s, r);
    }
    assert forall x :: x in t.touched ==> IssuedId(s, x.0) && IssuedId(t, x.0);
  }

  lemma StepLogs(s: State, st: Step)
    requires Inv(s) && Logged(s) && Enabled(s, st)
    ensures Logged(Do(s, st))
  {
    hide Inv, Logged;
    match st
    case Start(id, hash, deviceId, deviceName, expiresAt) =>
      StartLogs(s, Row(id, hash, deviceId, deviceName, None, None, None, None, expiresAt));
    case Poll(poll, hash, now, interval) => PollLogs(s, poll, hash, now, interval);
    case Deny(denial, id, user, now) => DenyLogs(s, denial, id, user, now);
    case Sweep(now) => SweepLogs(s, now);
    case _ => SameLogs(s, Do(s, st));
  }

  lemma {:induction false} RunLogs(s: State, steps: seq<Step>)
    requires Inv(s) && Logged(s) && Legal(s, steps)
    ensures Logged(Run(s, steps))
    decreases |steps|
  {
    hide Inv, Logged, Do;
    if steps != [] {
      StepKeeps(s, steps[0]);
      StepLogs(s, steps[0]);
      RunLogs(Do(s, steps[0]), steps[1..]);
    }
  }

  /** The row of a code that can still be polled for. */
  ghost predicate StillThere(s: State, id: nat, now: int) {
    exists r :: r in s.rows && r.id == id && r.consumedAt.None? && r.expiresAt > now
  }

  /**
   Over every run, what a poll is told, by the log: that there is nothing, when the code has expired or is spent; to
   slow down, when the last poll that touched it was less than the interval ago; and else that it was denied, when a
   denial stopped it, that it is approved, when an account approved it, and to wait, when neither has happened.
   */
  lemma PollIsTold(steps: seq<Step>, i: Row, now: int, interval: int)
    requires Legal(Nothing, steps) && i in Run(Nothing, steps).issued
    ensures var s := Run(Nothing, steps);
            var told := AnswerOf(Match(s.rows, PollableIs(i.hash, now)), now, interval);
            var last := LastTouch(s.touched, i.id);
            var soon := last.Some? && now - last.value < interval;
            var denied, approved := (i.id, Stopped) in s.reports, exists u :: (i.id, u) in s.approvals;
            && (told.Gone? <==> !StillThere(s, i.id, now))
            && (told.SlowDown? <==> StillThere(s, i.id, now) && soon)
            && (told.Denied? <==> StillThere(s, i.id, now) && !soon && denied)
            && (told.Approved? <==> StillThere(s, i.id, now) && !soon && approved)
            && (told.Pending? <==> StillThere(s, i.id, now) && !soon && !denied && !approved)
  {
    RunKeeps(Nothing, steps);
    RunLogs(Nothing, steps);
    hide SessionsEarned, DenialsHold, Distinct, Legal, Run;
    var s := Run(Nothing, steps);
    var row := Match(s.rows, PollableIs(i.hash, now));
    if row.Some? {
      IssuedRow(s, i, row.value);
    }
    if StillThere(s, i.id, now) {
      var r :| r in s.rows && r.id == i.id && r.consumedAt.None? && r.expiresAt > now;
      IssuedRow(s, i, r);
      assert PollableIs(i.hash, now)(r);
      OneRow(s, r, row.value);
      assert RowLogged(s, r);
      assert forall u :: r.user == Some(u) <==> (r.id, u) in s.approvals;
    }
  }

  lemma IssuedRow(s: State, i: Row, r: Row)
    requires RowsIssued(s) && i in s.issued && r in s.rows
    ensures i.id == r.id <==> i.hash == r.hash
  {
    var j :| j in s.issued && j.id == r.id && j.hash == r.hash;
    var m :| 0 <= m < |s.issued| && s.issued[m] == i;
    var n :| 0 <= n < |s.issued| && s.issued[n] == j;
    assert m == n || (i.id != j.id && i.hash != j.hash);
  }

  // ---------- an answer that is not what it says ----------

  /**
   The other case happens. Pressing Deny twice is reported as too late the second time, and there is no session, nor
   can there be one.
   */
  lemma DenyTwiceSaysTooLate(s: State, id: nat, user: nat, now: int)
    requires Inv(s) && 0 !in s.denials
    requires exists r :: r in s.rows && r.id == id && Undecided(r, now)
    ensures var once := Do(s, Deny(0, id, user, now));
            0 !in once.denials &&
            var twice := Do(once, Deny(0, id, user, now));
            0 in twice.denials &&
            var done := Do(twice, Revoke(0, now));
            && done.reports == s.reports + [(id, Stopped), (id, TooLate)]
            && forall x :: x in done.sessions ==> x.code != id
  {
    hide RowsIssued, ApprovalsOnce, SessionsEarned, Update, Match, Undecided, RevokeStep;
    DenyReports(s, 0, id, user, now);
    var once := Do(s, Deny(0, id, user, now));
    StepKeeps(s, Deny(0, id, user, now));
    forall r | r in once.rows && r.id == id
      ensures !Undecided(r, now) && r.user != Some(user)
    {
      DeniedRow(s, id, user, now, r);
    }
    assert (id, Stopped) in once.reports;
    hide Inv;
    DenyOfDenied(once, id, user, now);
    assert once.reports + [(id, TooLate)] == s.reports + [(id, Stopped), (id, TooLate)];
  }

  lemma DenyOfDenied(s: State, id: nat, user: nat, now: int)
    requires Inv(s) && 0 !in s.denials && (id, Stopped) in s.reports
    requires forall r :: r in s.rows && r.id == id ==> !Undecided(r, now) && r.user != Some(user)
    ensures var twice := Do(s, Deny(0, id, user, now));
            0 in twice.denials &&
            var done := Do(twice, Revoke(0, now));
            && done.reports == s.reports + [(id, TooLate)]
            && forall x :: x in done.sessions ==> x.code != id
  {
    hide RowsIssued, ApprovalsOnce, SessionsEarned, Update, Match, Undecided;
    DenyReports(s, 0, id, user, now);
  }

  lemma DeniedRow(s: State, id: nat, user: nat, now: int, r: Row)
    requires Inv(s) && 0 !in s.denials
    requires exists q :: q in s.rows && q.id == id && Undecided(q, now)
    requires r in Do(s, Deny(0, id, user, now)).rows && r.id == id
    ensures r.deniedAt.Some? && r.user.None? && !Undecided(r, now)
  {
    var q :| q in s.rows && q.id == id && Undecided(q, now);
    assert UndecidedIs(id, now)(q);
    var once := Do(s, Deny(0, id, user, now));
    var i :| 0 <= i < |once.rows| && once.rows[i] == r;
    OneRow(s, s.rows[i], q);
  }

  /**
   A poll that finds its authorization approved, and is not slowed down, gets its session if the code is spent
   before anything else happens to it.
   */
  lemma ApprovedPollSignsIn(s: State, poll: nat, r: Row, now: int, interval: int)
    requires Inv(s) && poll !in s.polls && r in s.rows
    requires Redeemable(r, now) && !TooSoon(r, now, interval)
    ensures var seen := Do(s, Poll(poll, r.hash, now, interval));
            poll in seen.polls &&
            Do(seen, Redeem(poll, now)).sessions ==
            s.sessions + [Session(r.id, r.user.value, r.deviceId, r.deviceName)]
  {
    hide RowsIssued, ApprovalsOnce, SessionsEarned, DenialsHold;
    var seen := Do(s, Poll(poll, r.hash, now, interval));
    assert PollableIs(r.hash, now)(r);
    var row := Match(s.rows, PollableIs(r.hash, now));
    OneRow(s, row.value, r);
    ForwardKeeps(s, seen.rows);
    assert seen.(polls := s.polls, touched := s.touched) == s.(rows := seen.rows);
    var i :| 0 <= i < |s.rows| && s.rows[i] == r;
    var polled := seen.rows[i];
    assert RedeemableIs(r.hash, now)(polled);
    var got := Match(seen.rows, RedeemableIs(r.hash, now));
    OneRow(s.(rows := seen.rows), got.value, polled);
  }

  // ---------- the service's methods, one atomic statement at a time ----------

  class Service {
    var s: State

    constructor ()
      ensures s == Nothing
    {
      s := Nothing;
    }

    /** The first statement of RedeemDeviceCode: records the poll, and answers from the row as it was before it. */
    method PollDeviceCode(poll: nat, hash: nat, now: int, interval: int) returns (answer: PollAnswer)
      requires Enabled(s, Poll(poll, hash, now, interval))
      modifies this
      ensures s == Do(old(s), Poll(poll, hash, now, interval))
      ensures answer == AnswerOf(Match(old(s.rows), PollableIs(hash, now)), now, interval)
      ensures answer.Approved? <==> poll in s.polls
    {
      var row := Match(s.rows, PollableIs(hash, now));
      s := s.(rows := Update(s.rows, PollableIs(hash, now), Polling(now)),
              touched := s.touched + (if row.Some? then [(row.value.id, now)] else []));
      if row.None? {
        return Gone;
      }
      if TooSoon(row.value, now, interval) {
        return SlowDown;
      }
      if row.value.deniedAt.Some? {
        return Denied;
      }
      if row.value.user.None? {
        return Pending;
      }
      s := s.(polls := s.polls[poll := hash]);
      return Approved;
    }

    /** Its second: spending the code and creating the session, in one transaction. */
    method ConsumeDeviceCode(poll: nat, now: int) returns (session: Option<Session>)
      requires Enabled(s, Redeem(poll, now))
      modifies this
      ensures s == Do(old(s), Redeem(poll, now))
      ensures session.Some? ==> s.sessions == old(s.sessions) + [session.value]
      ensures session.None? ==> s.sessions == old(s.sessions) && s.rows == old(s.rows)
    {
      var hash := s.polls[poll];
      var row := Match(s.rows, RedeemableIs(hash, now));
      s := s.(polls := s.polls - {poll});
      if row.None? {
        return None;
      }
      s := s.(rows := Update(s.rows, RedeemableIs(hash, now), Spending(now)));
      var made := Session(row.value.id, row.value.user.value, row.value.deviceId, row.value.deviceName);
      s := s.(sessions := s.sessions + [made]);
      return Some(made);
    }

    method ApproveDeviceAuthorization(id: nat, user: nat, now: int) returns (ok: bool)
      modifies this
      ensures s == Do(old(s), Approve(id, user, now))
      ensures ok <==> exists r :: r in old(s.rows) && UndecidedIs(id, now)(r)
    {
      var row := Match(s.rows, UndecidedIs(id, now));
      if row.None? {
        return false;
      }
      s := s.(rows := Update(s.rows, UndecidedIs(id, now), Approving(user)), approvals := s.approvals + [(id, user)]);
      return true;
    }

    /** The first statement of DenyDeviceAuthorization. */
    method DenyDeviceCode(denial: nat, id: nat, user: nat, now: int) returns (stopped: bool)
      requires Enabled(s, Deny(denial, id, user, now))
      modifies this
      ensures s == Do(old(s), Deny(denial, id, user, now))
      ensures stopped <==> denial !in s.denials
    {
      var row := Match(s.rows, UndecidedIs(id, now));
      if row.Some? {
        s := s.(rows := Update(s.rows, UndecidedIs(id, now), Denying(now)), reports := s.reports + [(id, Stopped)]);
        return true;
      }
      s := s.(denials := s.denials[denial := (id, user)]);
      return false;
    }

    /** Its second, when there was nothing to deny. */
    method RevokeApprovedDeviceCode(denial: nat, now: int) returns (outcome: DenyOutcome)
      requires Enabled(s, Revoke(denial, now))
      modifies this
      ensures s == Do(old(s), Revoke(denial, now))
      ensures s.reports == old(s.reports) + [(old(s.denials)[denial].0, outcome)]
    {
      var (id, user) := s.denials[denial];
      s := s.(denials := s.denials - {denial});
      var row := Match(s.rows, RevocableIs(id, user));
      if row.None? {
        s := s.(reports := s.reports + [(id, TooLate)]);
        return TooLate;
      }
      s := s.(rows := Update(s.rows, RevocableIs(id, user), Spending(now)), reports := s.reports + [(id, Revoked)],
              revoked := s.revoked + {id});
      return Revoked;
    }
  }
}
