// Preference versions as optimistic concurrency: any number of update transactions of both API
// versions over one table, interleaved step by step.
module Preferences {
  import opened Wrappers
  import opened Profiles

  // Both services write the same way; v2 only wraps the document.
  datatype Writer = V1 | V2

  datatype Row = Row(user: nat, version: nat, config: PreferenceInput, active: bool)

  datatype Stage = HasRead | HasDeactivated(rows: set<nat>)

  // A transaction between its read of the latest version and its commit.
  datatype Txn = Txn(writer: Writer, user: nat, version: nat, config: PreferenceInput, stage: Stage)

  datatype State = State(rows: seq<Row>, txns: map<nat, Txn>)

  const EMPTY := State([], map[])

  datatype Step =
    | Begin(txn: nat, writer: Writer, user: nat, raw: PreferenceInput)
    | Deactivate(txn: nat)
    | Commit(txn: nat)
    | Abort(txn: nat)

  function Latest(rows: seq<Row>, user: nat): nat {
    if rows == [] then 0
    else
      var earlier := Latest(rows[..|rows| - 1], user);
      var last := rows[|rows| - 1];
      if last.user == user && last.version > earlier then last.version else earlier
  }

  function ActiveRows(rows: seq<Row>, user: nat): set<nat> {
    set i: nat | i < |rows| && rows[i].user == user && rows[i].active
  }

  function Deactivated(rows: seq<Row>, ids: set<nat>): seq<Row> {
    seq(|rows|, i requires 0 <= i < |rows| => if i in ids then rows[i].(active := false) else rows[i])
  }

  predicate VersionTaken(rows: seq<Row>, user: nat, version: nat) {
    exists i :: 0 <= i < |rows| && rows[i].user == user && rows[i].version == version
  }

  // The two unique constraints a commit meets: (user, version), and one active row per user.
  predicate ActiveConflict(rows: seq<Row>, txn: Txn, ids: set<nat>) {
    ActiveRows(Deactivated(rows, ids), txn.user) != {}
  }

  function NewRow(txn: Txn): Row {
    Row(txn.user, txn.version, txn.config, true)
  }

  function Apply(casefold: Fold, st: State, step: Step): State {
    match step
    case Begin(t, writer, user, raw) =>
      var config := Validate(casefold, raw);
      if t in st.txns || config.None? then st
      else st.(txns := st.txns[t := Txn(writer, user, Latest(st.rows, user) + 1, config.value, HasRead)])
    case Deactivate(t) =>
      if t !in st.txns || st.txns[t].stage != HasRead then st
      else st.(txns := st.txns[t := st.txns[t].(stage := HasDeactivated(ActiveRows(st.rows, st.txns[t].user)))])
    case Commit(t) =>
      if t !in st.txns || !st.txns[t].stage.HasDeactivated? then st
      else
        var txn := st.txns[t];
        if VersionTaken(st.rows, txn.user, txn.version) || ActiveConflict(st.rows, txn, txn.stage.rows) then
          st.(txns := st.txns - {t})
        else State(Deactivated(st.rows, txn.stage.rows) + [NewRow(txn)], st.txns - {t})
    case Abort(t) => st.(txns := st.txns - {t})
  }

  function Exec(casefold: Fold, st: State, steps: seq<Step>): State {
    if steps == [] then st
    else Apply(casefold, Exec(casefold, st, steps[..|steps| - 1]), steps[|steps| - 1])
  }

  // ---------------------------------------------------------------- the invariant

  // A user's versions are exactly 1..n, each once, and the active row is the one of version n.
  ghost predicate NoGaps(rows: seq<Row>) {
    forall u, v: nat :: VersionTaken(rows, u, v) <==> 1 <= v <= Latest(rows, u)
  }

  ghost predicate NoRepeats(rows: seq<Row>) {
    forall i, j :: 0 <= i < j < |rows| ==> rows[i].user != rows[j].user || rows[i].version != rows[j].version
  }

  ghost predicate NewestActive(rows: seq<Row>) {
    forall i :: 0 <= i < |rows| ==> (rows[i].active <==> rows[i].version == Latest(rows, rows[i].user))
  }

  ghost predicate Versioned(rows: seq<Row>) {
    NoGaps(rows) && NoRepeats(rows) && NewestActive(rows)
  }

  // A transaction whose version is still free has seen the table as it is for its user.
  ghost predicate TxnFits(rows: seq<Row>, txn: Txn) {
    && 1 <= txn.version <= Latest(rows, txn.user) + 1
    && (txn.version == Latest(rows, txn.user) + 1 && txn.stage.HasDeactivated? ==>
        txn.stage.rows == ActiveRows(rows, txn.user))
  }

  ghost predicate ReadsBack(casefold: Fold, config: PreferenceInput) {
    Validate(casefold, config) == Some(config)
  }

  ghost predicate ConfigsRead(casefold: Fold, st: State) {
    && (forall i :: 0 <= i < |st.rows| ==> ReadsBack(casefold, st.rows[i].config))
    && (forall t :: t in st.txns ==> ReadsBack(casefold, st.txns[t].config))
  }

  ghost predicate TxnsFit(rows: seq<Row>, txns: map<nat, Txn>) {
    forall t :: t in txns ==> TxnFits(rows, txns[t])
  }

  ghost predicate Inv(st: State) {
    Versioned(st.rows) && TxnsFit(st.rows, st.txns)
  }

  lemma {:induction false} LatestSame(a: seq<Row>, b: seq<Row>, user: nat)
    requires |a| == |b| && forall i :: 0 <= i < |a| ==> a[i].user == b[i].user && a[i].version == b[i].version
    ensures Latest(a, user) == Latest(b, user)
  {
    if a != [] { LatestSame(a[..|a| - 1], b[..|b| - 1], user); }
  }

  lemma LatestSnoc(rows: seq<Row>, row: Row, user: nat)
    ensures Latest(rows + [row], user)
         == if row.user == user && row.version > Latest(rows, user) then row.version else Latest(rows, user)
  {
    assert (rows + [row])[..|rows|] == rows;
  }

  // In a consistent table the unique active row never rejects a commit on its own: a commit fails
  // exactly when another update of the same user committed since this one read the latest version.
  lemma CommitConflicts(casefold: Fold, st: State, t: nat)
    requires Inv(st) && t in st.txns && st.txns[t].stage.HasDeactivated?
    ensures
      var txn := st.txns[t];
      && (VersionTaken(st.rows, txn.user, txn.version) <==> txn.version <= Latest(st.rows, txn.user))
      && (!VersionTaken(st.rows, txn.user, txn.version) ==> !ActiveConflict(st.rows, txn, txn.stage.rows))
      && (Apply(casefold, st, Commit(t)).rows == st.rows <==> txn.version <= Latest(st.rows, txn.user))
  {
    var txn := st.txns[t];
    assert TxnFits(st.rows, txn);
    if !VersionTaken(st.rows, txn.user, txn.version) {
      assert txn.stage.rows == ActiveRows(st.rows, txn.user);
      assert ActiveRows(Deactivated(st.rows, txn.stage.rows), txn.user) == {};
    }
  }

  lemma CommitLatest(rows: seq<Row>, txn: Txn, ids: set<nat>, user: nat)
    requires txn.version == Latest(rows, txn.user) + 1
    ensures Latest(Deactivated(rows, ids) + [NewRow(txn)], user)
         == if user == txn.user then txn.version else Latest(rows, user)
  {
    LatestSame(Deactivated(rows, ids), rows, user);
    LatestSnoc(Deactivated(rows, ids), NewRow(txn), user);
  }

  function Committed(rows: seq<Row>, txn: Txn): seq<Row> {
    Deactivated(rows, ActiveRows(rows, txn.user)) + [NewRow(txn)]
  }

  lemma InRange(rows: seq<Row>, i: nat)
    requires NoGaps(rows) && i < |rows|
    ensures 1 <= rows[i].version <= Latest(rows, rows[i].user)
  {
    assert VersionTaken(rows, rows[i].user, rows[i].version);
  }

  lemma CommitTaken(rows: seq<Row>, txn: Txn, u: nat, v: nat)
    ensures VersionTaken(Committed(rows, txn), u, v)
        <==> VersionTaken(rows, u, v) || (u == txn.user && v == txn.version)
  {
    var after := Committed(rows, txn);
    if VersionTaken(rows, u, v) {
      var i :| 0 <= i < |rows| && rows[i].user == u && rows[i].version == v;
      assert after[i].user == u && after[i].version == v;
    }
    if u == txn.user && v == txn.version {
      assert after[|rows|].user == u && after[|rows|].version == v;
    }
    if VersionTaken(after, u, v) && !(u == txn.user && v == txn.version) {
      var i :| 0 <= i < |after| && after[i].user == u && after[i].version == v;
      assert rows[i].user == u && rows[i].version == v;
    }
  }

  lemma CommitKeepsNoGaps(rows: seq<Row>, txn: Txn)
    requires NoGaps(rows) && txn.version == Latest(rows, txn.user) + 1
    ensures NoGaps(Committed(rows, txn))
  {
    var after := Committed(rows, txn);
    forall u, v: nat ensures VersionTaken(after, u, v) <==> 1 <= v <= Latest(after, u) {
      CommitLatest(rows, txn, ActiveRows(rows, txn.user), u);
      CommitTaken(rows, txn, u, v);
    }
  }

  lemma CommitKeepsNewestActive(rows: seq<Row>, txn: Txn)
    requires NewestActive(rows) && txn.version == Latest(rows, txn.user) + 1
    requires forall i :: 0 <= i < |rows| ==> rows[i].version <= Latest(rows, rows[i].user)
    ensures NewestActive(Committed(rows, txn))
  {
    var after := Committed(rows, txn);
    forall i | 0 <= i < |after| ensures after[i].active <==> after[i].version == Latest(after, after[i].user) {
      CommitLatest(rows, txn, ActiveRows(rows, txn.user), after[i].user);
      assert i < |rows| ==> rows[i].version <= Latest(rows, rows[i].user);
    }
  }

  lemma CommitKeepsVersioned(rows: seq<Row>, txn: Txn)
    requires Versioned(rows) && txn.version == Latest(rows, txn.user) + 1
    ensures Versioned(Committed(rows, txn))
  {
    forall i | 0 <= i < |rows| ensures rows[i].version <= Latest(rows, rows[i].user) { InRange(rows, i); }
    CommitKeepsNoGaps(rows, txn);
    CommitKeepsNoRepeats(rows, txn);
    CommitKeepsNewestActive(rows, txn);
  }

  lemma CommitKeepsNoRepeats(rows: seq<Row>, txn: Txn)
    requires NoRepeats(rows) && txn.version == Latest(rows, txn.user) + 1
    requires forall i :: 0 <= i < |rows| ==> rows[i].version <= Latest(rows, rows[i].user)
    ensures NoRepeats(Committed(rows, txn))
  {
    var after := Committed(rows, txn);
    forall i, j | 0 <= i < j < |after| ensures after[i].user != after[j].user || after[i].version != after[j].version {
      if j < |rows| { assert rows[i].user != rows[j].user || rows[i].version != rows[j].version; }
    }
  }

  // Other users' transactions keep their view; those of the same user are now out of date.
  lemma CommitKeepsTxn(rows: seq<Row>, txn: Txn, other: Txn)
    requires Versioned(rows) && txn.version == Latest(rows, txn.user) + 1
    requires TxnFits(rows, other)
    ensures TxnFits(Committed(rows, txn), other)
  {
    var ids := ActiveRows(rows, txn.user);
    var after := Committed(rows, txn);
    CommitLatest(rows, txn, ids, other.user);
    if other.user != txn.user {
      assert ActiveRows(after, other.user) == ActiveRows(rows, other.user);
    }
  }

  lemma CommitResult(casefold: Fold, st: State, t: nat)
    requires Inv(st) && t in st.txns && st.txns[t].stage.HasDeactivated?
    ensures Apply(casefold, st, Commit(t))
         == State(if st.txns[t].version <= Latest(st.rows, st.txns[t].user) then st.rows
                  else Committed(st.rows, st.txns[t]),
                  st.txns - {t})
    ensures st.txns[t].version <= Latest(st.rows, st.txns[t].user) + 1
  {
    CommitConflicts(casefold, st, t);
    assert TxnFits(st.rows, st.txns[t]);
  }

  lemma CommitKeepsInv(rows: seq<Row>, txns: map<nat, Txn>, t: nat)
    requires Versioned(rows) && TxnsFit(rows, txns)
    requires t in txns && txns[t].version == Latest(rows, txns[t].user) + 1
    ensures Versioned(Committed(rows, txns[t])) && TxnsFit(Committed(rows, txns[t]), txns - {t})
  {
    var txn := txns[t];
    CommitKeepsVersioned(rows, txn);
    forall other | other in txns - {t} ensures TxnFits(Committed(rows, txn), txns[other]) {
      CommitKeepsTxn(rows, txn, txns[other]);
    }
  }

  lemma StepKeepsInv(casefold: Fold, st: State, step: Step)
    requires Inv(st)
    ensures Inv(Apply(casefold, st, step))
  {
    if step.Commit? && step.txn in st.txns && st.txns[step.txn].stage.HasDeactivated? {
      var txn := st.txns[step.txn];
      CommitResult(casefold, st, step.txn);
      if txn.version > Latest(st.rows, txn.user) {
        CommitKeepsInv(st.rows, st.txns, step.txn);
      }
    } else {
      assert Apply(casefold, st, step).rows == st.rows;
      assert TxnsFit(st.rows, Apply(casefold, st, step).txns);
    }
  }

  lemma StepKeepsConfigs(casefold: Fold, st: State, step: Step)
    requires ConfigsRead(casefold, st)
    ensures ConfigsRead(casefold, Apply(casefold, st, step))
  {
    var after := Apply(casefold, st, step);
    forall i | 0 <= i < |after.rows| ensures ReadsBack(casefold, after.rows[i].config) {
      RowSource(casefold, st, step, i);
    }
    forall t | t in after.txns ensures ReadsBack(casefold, after.txns[t].config) {
      TxnSource(casefold, st, step, t);
      if Asks(casefold, step, after.txns[t].user, after.txns[t].config) {
        ValidIsFixed(casefold, Trimmed(step.raw));
      }
    }
  }

  lemma {:induction false} RunKeepsInv(casefold: Fold, steps: seq<Step>)
    ensures Inv(Exec(casefold, EMPTY, steps)) && ConfigsRead(casefold, Exec(casefold, EMPTY, steps))
  {
    if steps == [] {
      assert Versioned([]);
    } else {
      var before := Exec(casefold, EMPTY, steps[..|steps| - 1]);
      RunKeepsInv(casefold, steps[..|steps| - 1]);
      StepKeepsInv(casefold, before, steps[|steps| - 1]);
      StepKeepsConfigs(casefold, before, steps[|steps| - 1]);
    }
  }

  // ---------------------------------------------------------------- the main results

  lemma OneActive(rows: seq<Row>, user: nat)
    requires Versioned(rows)
    ensures |ActiveRows(rows, user)| == if Latest(rows, user) == 0 then 0 else 1
    ensures forall i :: i in ActiveRows(rows, user) ==> rows[i].version == Latest(rows, user)
  {
    var n := Latest(rows, user);
    forall i | i in ActiveRows(rows, user) ensures rows[i].version == n > 0 { InRange(rows, i); }
    if n == 0 {
      assert ActiveRows(rows, user) == {};
    } else {
      assert VersionTaken(rows, user, n);
      var i :| 0 <= i < |rows| && rows[i].user == user && rows[i].version == n;
      assert ActiveRows(rows, user) == {i};
    }
  }

  // Over every interleaving: a user's committed versions are exactly 1..n, each once, and the only
  // active row, if any, is the one of version n.
  lemma OptimisticVersioning(casefold: Fold, steps: seq<Step>, user: nat)
    ensures
      var rows := Exec(casefold, EMPTY, steps).rows;
      && (forall v: nat :: VersionTaken(rows, user, v) <==> 1 <= v <= Latest(rows, user))
      && NoRepeats(rows)
      && |ActiveRows(rows, user)| == (if Latest(rows, user) == 0 then 0 else 1)
      && (forall i :: i in ActiveRows(rows, user) ==> rows[i].version == Latest(rows, user))
  {
    RunKeepsInv(casefold, steps);
    OneActive(Exec(casefold, EMPTY, steps).rows, user);
  }

  // Whatever either writer stored, at any time, reads back and matches as the same preferences.
  lemma StoredConfigsReadBack(casefold: Fold, steps: seq<Step>, i: nat)
    requires i < |Exec(casefold, EMPTY, steps).rows|
    ensures var config := Exec(casefold, EMPTY, steps).rows[i].config;
      ValidPreferences(casefold, config) && Validate(casefold, config) == Some(config)
  {
    RunKeepsInv(casefold, steps);
    ProfileRoundTrip(casefold, Exec(casefold, EMPTY, steps).rows[i].config);
  }

  // What a committed row says never changes but for its being active, and rows are never removed.
  ghost predicate History(before: seq<Row>, after: seq<Row>) {
    && |before| <= |after|
    && forall i :: 0 <= i < |before| ==>
         && after[i].user == before[i].user && after[i].version == before[i].version
         && after[i].config == before[i].config
  }

  lemma CommitHistory(rows: seq<Row>, user: nat, row: Row)
    ensures
      var after := Deactivated(rows, ActiveRows(rows, user)) + [row];
      && History(rows, after)
      && forall i :: 0 <= i < |rows| ==> after[i].active == (rows[i].active && rows[i].user != user)
  {
  }

  lemma ExecLast(casefold: Fold, st: State, steps: seq<Step>)
    requires steps != []
    ensures Exec(casefold, st, steps)
         == Apply(casefold, Exec(casefold, st, steps[..|steps| - 1]), steps[|steps| - 1])
  {
  }

  lemma StepHistory(casefold: Fold, st: State, step: Step)
    ensures History(st.rows, Apply(casefold, st, step).rows)
  {
  }

  lemma HistoryTransitive(a: seq<Row>, b: seq<Row>, c: seq<Row>)
    requires History(a, b) && History(b, c)
    ensures History(a, c)
  {
  }

  lemma {:induction false} HistoryKept(casefold: Fold, st: State, steps: seq<Step>, k: nat)
    requires k <= |steps|
    ensures History(Exec(casefold, st, steps[..k]).rows, Exec(casefold, st, steps).rows)
  {
    if k == |steps| {
      assert steps[..k] == steps;
    } else {
      var n := |steps| - 1;
      var before := Exec(casefold, st, steps[..n]);
      HistoryKept(casefold, st, steps[..n], k);
      assert steps[..n][..k] == steps[..k];
      ExecLast(casefold, st, steps);
      StepHistory(casefold, before, steps[n]);
      HistoryTransitive(Exec(casefold, st, steps[..k]).rows, before.rows, Exec(casefold, st, steps).rows);
    }
  }

  // A document that somebody asked to store for the user, in its trimmed form.
  ghost predicate Requested(casefold: Fold, steps: seq<Step>, user: nat, config: PreferenceInput) {
    exists i :: 0 <= i < |steps| && Asks(casefold, steps[i], user, config)
  }

  ghost predicate Asks(casefold: Fold, step: Step, user: nat, config: PreferenceInput) {
    step.Begin? && step.user == user && ValidPreferences(casefold, Trimmed(step.raw)) && config == Trimmed(step.raw)
  }

  lemma RequestedLonger(casefold: Fold, steps: seq<Step>, user: nat, config: PreferenceInput)
    requires steps != []
    requires || Requested(casefold, steps[..|steps| - 1], user, config)
             || Asks(casefold, steps[|steps| - 1], user, config)
    ensures Requested(casefold, steps, user, config)
  {
    var prior := steps[..|steps| - 1];
    if Requested(casefold, prior, user, config) {
      var i :| 0 <= i < |prior| && Asks(casefold, prior[i], user, config);
      assert Asks(casefold, steps[i], user, config);
    }
  }

  ghost predicate AllRequested(casefold: Fold, steps: seq<Step>, st: State) {
    && (forall i :: 0 <= i < |st.rows| ==> Requested(casefold, steps, st.rows[i].user, st.rows[i].config))
    && (forall t :: t in st.txns ==> Requested(casefold, steps, st.txns[t].user, st.txns[t].config))
  }

  // Where the rows and the transactions of a step's result come from.
  lemma RowSource(casefold: Fold, st: State, step: Step, i: nat)
    requires i < |Apply(casefold, st, step).rows|
    ensures
      var row := Apply(casefold, st, step).rows[i];
      || (i < |st.rows| && row.user == st.rows[i].user && row.config == st.rows[i].config)
      || (step.Commit? && step.txn in st.txns
          && row.user == st.txns[step.txn].user && row.config == st.txns[step.txn].config)
  {
  }

  lemma TxnSource(casefold: Fold, st: State, step: Step, t: nat)
    requires t in Apply(casefold, st, step).txns
    ensures
      var txn := Apply(casefold, st, step).txns[t];
      || (t in st.txns && txn.user == st.txns[t].user && txn.config == st.txns[t].config)
      || Asks(casefold, step, txn.user, txn.config)
  {
    if step.Begin? { ValidateExact(casefold, step.raw); }
  }

  lemma NextRequested(casefold: Fold, steps: seq<Step>, before: State)
    requires steps != [] && AllRequested(casefold, steps[..|steps| - 1], before)
    ensures AllRequested(casefold, steps, Apply(casefold, before, steps[|steps| - 1]))
  {
    var step := steps[|steps| - 1];
    var after := Apply(casefold, before, step);
    forall i | 0 <= i < |after.rows| ensures Requested(casefold, steps, after.rows[i].user, after.rows[i].config) {
      RowSource(casefold, before, step, i);
      if i < |before.rows| {
        assert Requested(casefold, steps[..|steps| - 1], before.rows[i].user, before.rows[i].config);
      }
      RequestedLonger(casefold, steps, after.rows[i].user, after.rows[i].config);
    }
    forall t | t in after.txns ensures Requested(casefold, steps, after.txns[t].user, after.txns[t].config) {
      TxnSource(casefold, before, step, t);
      RequestedLonger(casefold, steps, after.txns[t].user, after.txns[t].config);
    }
  }

  // Over every interleaving, every stored version is what some update of that very user asked for.
  lemma {:induction false} StoredAsRequested(casefold: Fold, steps: seq<Step>)
    ensures AllRequested(casefold, steps, Exec(casefold, EMPTY, steps))
  {
    if steps != [] {
      var n := |steps| - 1;
      StoredAsRequested(casefold, steps[..n]);
      NextRequested(casefold, steps, Exec(casefold, EMPTY, steps[..n]));
      ExecLast(casefold, EMPTY, steps);
    }
  }

  // ---------------------------------------------------------------- one writer at a time

  class PreferenceRepository {
    const casefold: Fold
    var rows: seq<Row>

    constructor (casefold: Fold)
      ensures this.casefold == casefold && rows == []
      ensures Inv(State(rows, map[]))
    {
      this.casefold := casefold;
      rows := [];
      new;
      assert Versioned(rows);
    }

    method GetActive(user: nat) returns (row: Option<Row>)
      requires Inv(State(rows, map[]))
      ensures row.None? <==> Latest(rows, user) == 0
      ensures row.Some? ==> row.value in rows && row.value.user == user && row.value.version == Latest(rows, user)
    {
      if i :| 0 <= i < |rows| && rows[i].user == user && rows[i].active {
        assert VersionTaken(rows, user, rows[i].version);
        return Some(rows[i]);
      }
      assert ActiveRows(rows, user) == {};
      OneActive(rows, user);
      return None;
    }

    // An update nobody interferes with always commits the next version.
    method Update(writer: Writer, user: nat, raw: PreferenceInput) returns (stored: Option<Row>)
      requires Inv(State(rows, map[]))
      modifies this
      ensures Inv(State(rows, map[]))
      ensures State(rows, map[])
          == Exec(casefold, State(old(rows), map[]), [Begin(0, writer, user, raw), Deactivate(0), Commit(0)])
      ensures stored.None? <==> Validate(casefold, raw).None?
      ensures stored.None? ==> rows == old(rows)
      ensures stored.Some? ==>
        && |rows| == |old(rows)| + 1 && rows[|old(rows)|] == stored.value
        && stored.value == Row(user, Latest(old(rows), user) + 1, Validate(casefold, raw).value, true)
        && Latest(rows, user) == Latest(old(rows), user) + 1
      ensures stored.Some? ==>
        && History(old(rows), rows)
        && forall i :: 0 <= i < |old(rows)| ==> rows[i].active == (old(rows)[i].active && old(rows)[i].user != user)
    {
      ghost var s0 := State(rows, map[]);
      ghost var s1 := Apply(casefold, s0, Begin(0, writer, user, raw));
      ghost var s2 := Apply(casefold, s1, Deactivate(0));
      ghost var s3 := Apply(casefold, s2, Commit(0));
      ThreeSteps(casefold, s0, Begin(0, writer, user, raw), Deactivate(0), Commit(0));
      StepKeepsInv(casefold, s0, Begin(0, writer, user, raw));
      StepKeepsInv(casefold, s1, Deactivate(0));
      StepKeepsInv(casefold, s2, Commit(0));
      var config := Validate(casefold, raw);
      if config.None? {
        return None;
      }
      var version := Latest(rows, user) + 1;
      CommitConflicts(casefold, s2, 0);
      CommitLatest(rows, s1.txns[0], ActiveRows(rows, user), user);
      CommitHistory(rows, user, Row(user, version, config.value, true));
      rows := Deactivated(rows, ActiveRows(rows, user));
      rows := rows + [Row(user, version, config.value, true)];
      assert s3.txns == map[];
      return Some(rows[|rows| - 1]);
    }
  }

  lemma ThreeSteps(casefold: Fold, st: State, a: Step, b: Step, c: Step)
    ensures Exec(casefold, st, [a, b, c]) == Apply(casefold, Apply(casefold, Apply(casefold, st, a), b), c)
  {
    var ab := [a, b, c][..2];
    assert ab == [a, b];
    var one := ab[..1];
    assert one == [a];
    assert one[..0] == [];
    assert Exec(casefold, st, one) == Apply(casefold, st, a);
    assert Exec(casefold, st, ab) == Apply(casefold, Exec(casefold, st, one), b);
  }
}
