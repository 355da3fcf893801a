// Notification delivery: one row per (user, job, profile, channel), and what the provider was asked.
module Notifications {
  import opened Wrappers
  import opened Catalog
  import opened Profiles
  import opened RuleEngine

  datatype Key = Key(user: nat, job: nat, profile: nat, channel: string)

  datatype Status = Pending | Delivered | Retryable | Failed

  datatype Delivery = Delivery(key: Key, status: Status, attemptCount: nat, providerMessageId: Option<string>,
                               error: Option<string>)

  // What the provider does when it is asked to send.
  datatype Sending = Sent(id: string) | Fault(message: string, retryable: bool)

  datatype Attempt = Attempt(key: Key, sending: Sending)

  datatype Call = Call(key: Key, decision: Decision, sending: Sending)

  datatype World = World(rows: seq<Delivery>, log: seq<Attempt>)

  function FindRow(rows: seq<Delivery>, key: Key): (r: Option<nat>)
    ensures r.Some? ==> r.value < |rows| && rows[r.value].key == key
    ensures r.None? ==> forall i :: 0 <= i < |rows| ==> rows[i].key != key
  {
    if rows == [] then None
    else
      var n := |rows| - 1;
      var earlier := FindRow(rows[..n], key);
      if earlier.Some? then earlier else if rows[n].key == key then Some(n) else None
  }

  function Attempted(row: Delivery, sending: Sending): Delivery {
    match sending
    case Sent(id) => Delivery(row.key, Delivered, row.attemptCount + 1, Some(id), None)
    case Fault(message, retryable) =>
      Delivery(row.key, if retryable then Retryable else Failed, row.attemptCount + 1,
               row.providerMessageId, Some(message))
  }

  function Delivering(w: World, call: Call): World {
    if call.decision != Notify then w
    else
      var found := FindRow(w.rows, call.key);
      var rows := if found.Some? then w.rows else w.rows + [Delivery(call.key, Pending, 0, None, None)];
      var i := if found.Some? then found.value else |w.rows|;
      if found.Some? && rows[i].status == Delivered then w
      else World(rows[i := Attempted(rows[i], call.sending)], w.log + [Attempt(call.key, call.sending)])
  }

  function Run(calls: seq<Call>): World {
    if calls == [] then World([], [])
    else Delivering(Run(calls[..|calls| - 1]), calls[|calls| - 1])
  }

  function Attempts(log: seq<Attempt>, key: Key): nat {
    if log == [] then 0
    else Attempts(log[..|log| - 1], key) + (if log[|log| - 1].key == key then 1 else 0)
  }

  function Successes(log: seq<Attempt>, key: Key): nat {
    if log == [] then 0
    else Successes(log[..|log| - 1], key) + (if log[|log| - 1].key == key && log[|log| - 1].sending.Sent? then 1 else 0)
  }

  lemma CountsSnoc(log: seq<Attempt>, a: Attempt, key: Key)
    ensures Attempts(log + [a], key) == Attempts(log, key) + (if a.key == key then 1 else 0)
    ensures Successes(log + [a], key) == Successes(log, key) + (if a.key == key && a.sending.Sent? then 1 else 0)
  {
    assert (log + [a])[..|log|] == log;
  }

  // ---------------------------------------------------------------- the invariant

  ghost predicate RowFits(row: Delivery, log: seq<Attempt>) {
    && row.attemptCount == Attempts(log, row.key) > 0
    && Successes(log, row.key) == (if row.status == Delivered then 1 else 0)
    && (row.providerMessageId.Some? <==> row.status == Delivered)
    && (row.error.None? <==> row.status == Delivered)
    && row.status != Pending
  }

  ghost predicate OneRowPerKey(rows: seq<Delivery>) {
    forall i, j :: 0 <= i < j < |rows| ==> rows[i].key != rows[j].key
  }

  ghost predicate Inv(w: World) {
    && OneRowPerKey(w.rows)
    && (forall i :: 0 <= i < |w.rows| ==> RowFits(w.rows[i], w.log))
    && (forall key :: FindRow(w.rows, key).None? ==> Attempts(w.log, key) == 0 && Successes(w.log, key) == 0)
  }

  // Delivered rows are never touched again.
  ghost predicate Keeps(a: World, b: World) {
    && |a.rows| <= |b.rows|
    && (forall i :: 0 <= i < |a.rows| ==>
        b.rows[i].key == a.rows[i].key && (a.rows[i].status == Delivered ==> b.rows[i] == a.rows[i]))
  }

  lemma AttemptKeepsRows(w: World, call: Call)
    requires Inv(w) && Delivering(w, call) != w
    ensures forall i :: 0 <= i < |Delivering(w, call).rows| ==>
        RowFits(Delivering(w, call).rows[i], Delivering(w, call).log)
    ensures OneRowPerKey(Delivering(w, call).rows)
  {
    var w' := Delivering(w, call);
    forall i | 0 <= i < |w'.rows| ensures RowFits(w'.rows[i], w'.log) {
      CountsSnoc(w.log, Attempt(call.key, call.sending), w'.rows[i].key);
      if i < |w.rows| { assert RowFits(w.rows[i], w.log); }
    }
  }

  lemma DeliverKeeps(w: World, call: Call)
    requires Inv(w)
    ensures Inv(Delivering(w, call)) && Keeps(w, Delivering(w, call))
  {
    var w' := Delivering(w, call);
    if w' != w {
      AttemptKeepsRows(w, call);
      forall key | FindRow(w'.rows, key).None?
        ensures Attempts(w'.log, key) == 0 && Successes(w'.log, key) == 0
      {
        CountsSnoc(w.log, Attempt(call.key, call.sending), key);
        var i := if FindRow(w.rows, call.key).Some? then FindRow(w.rows, call.key).value else |w.rows|;
        assert w'.rows[i].key == call.key;
        assert forall j :: 0 <= j < |w.rows| ==> w'.rows[j].key == w.rows[j].key;
      }
    }
  }

  lemma {:induction false} RunKeeps(calls: seq<Call>, k: nat)
    requires k <= |calls|
    ensures Inv(Run(calls)) && Keeps(Run(calls[..k]), Run(calls))
  {
    if k == |calls| {
      assert calls[..k] == calls;
      if k > 0 {
        RunKeeps(calls[..k - 1], k - 1);
        DeliverKeeps(Run(calls[..k - 1]), calls[k - 1]);
      }
    } else {
      var n := |calls| - 1;
      RunKeeps(calls[..n], k);
      assert calls[..n][..k] == calls[..k];
      DeliverKeeps(Run(calls[..n]), calls[n]);
    }
  }

  // ---------------------------------------------------------------- the main results

  // Over any run of deliveries a key has at most one row and at most one successful send; its row
  // counts the attempts made, and carries a message id and no error exactly when it was delivered.
  lemma AtMostOnce(calls: seq<Call>, key: Key)
    ensures
      var w := Run(calls);
      var row := FindRow(w.rows, key);
      && Successes(w.log, key) <= 1
      && OneRowPerKey(w.rows)
      && (row.None? ==> Attempts(w.log, key) == 0)
      && (row.Some? ==>
            var d := w.rows[row.value];
            && d.attemptCount == Attempts(w.log, key)
            && (d.status == Delivered <==> Successes(w.log, key) == 1)
            && (d.providerMessageId.Some? <==> d.status == Delivered)
            && (d.error.None? <==> d.status == Delivered))
  {
    RunKeeps(calls, 0);
    var w := Run(calls);
    var row := FindRow(w.rows, key);
    if row.Some? { assert RowFits(w.rows[row.value], w.log); }
  }

  // What the provider answered when it was last asked about a key.
  function LastSending(log: seq<Attempt>, key: Key): Option<Sending> {
    if log == [] then None
    else if log[|log| - 1].key == key then Some(log[|log| - 1].sending)
    else LastSending(log[..|log| - 1], key)
  }

  // A row shows that answer: the message id of a success, or the error of a failure and whether it is
  // worth another try.
  ghost predicate Shows(row: Delivery, sending: Option<Sending>) {
    match sending
    case None => false
    case Some(Sent(id)) => row.status == Delivered && row.providerMessageId == Some(id) && row.error == None
    case Some(Fault(message, true)) =>
      row.status == Retryable && row.error == Some(message) && row.providerMessageId == None
    case Some(Fault(message, false)) =>
      row.status == Failed && row.error == Some(message) && row.providerMessageId == None
  }

  ghost predicate AllShow(w: World) {
    forall i :: 0 <= i < |w.rows| ==> Shows(w.rows[i], LastSending(w.log, w.rows[i].key))
  }

  lemma DeliverShows(w: World, call: Call)
    requires Inv(w) && AllShow(w)
    ensures AllShow(Delivering(w, call))
  {
    var w' := Delivering(w, call);
    if w' != w {
      var a := Attempt(call.key, call.sending);
      forall i | 0 <= i < |w'.rows| ensures Shows(w'.rows[i], LastSending(w'.log, w'.rows[i].key)) {
        assert w'.log[..|w.log|] == w.log;
        if i < |w.rows| {
          assert Shows(w.rows[i], LastSending(w.log, w.rows[i].key)) && RowFits(w.rows[i], w.log);
        }
      }
    }
  }

  // Over any run of deliveries every row agrees with the last attempt made for its key.
  lemma {:induction false} LastAttemptShown(calls: seq<Call>)
    ensures AllShow(Run(calls))
  {
    if calls != [] {
      var n := |calls| - 1;
      LastAttemptShown(calls[..n]);
      RunKeeps(calls[..n], 0);
      DeliverShows(Run(calls[..n]), calls[n]);
    }
  }

  // Once delivered, a row is final: no later call changes it or reaches the provider for its key.
  lemma DeliveredIsFinal(calls: seq<Call>, k: nat, i: nat)
    requires k <= |calls| && i < |Run(calls[..k]).rows| && Run(calls[..k]).rows[i].status == Delivered
    ensures i < |Run(calls).rows| && Run(calls).rows[i] == Run(calls[..k]).rows[i]
    ensures Attempts(Run(calls).log, Run(calls).rows[i].key) == Attempts(Run(calls[..k]).log, Run(calls).rows[i].key)
  {
    RunKeeps(calls, k);
    RunKeeps(calls[..k], 0);
    assert RowFits(Run(calls).rows[i], Run(calls).log);
    assert RowFits(Run(calls[..k]).rows[i], Run(calls[..k]).log);
  }

  // Matching and then delivering reaches the provider only if no exclusion occurs in the job's text
  // and the score is at least the minimum, and the key was not delivered before.
  lemma MatchToSend(casefold: Fold, job: Job, p: PreferenceInput, w: World, key: Key, sending: Sending)
    ensures
      var d := EvaluateRules(casefold, job, p);
      var after := Delivering(w, Call(key, d.decision, sending));
      var row := FindRow(w.rows, key);
      after.log != w.log
      <==> (!(exists t :: t in p.exclusions && Occurs(casefold(t), casefold(job.title + " " + job.description)))
            && d.components.role + d.components.location + d.components.skills + d.components.company >= p.minimumScore
            && (row.Some? ==> w.rows[row.value].status != Delivered))
  {
    DecisionExact(casefold, job, p);
    var d := EvaluateRules(casefold, job, p);
    var after := Delivering(w, Call(key, d.decision, sending));
    assert |after.log| != |w.log| ==> after.log != w.log;
  }

  // ---------------------------------------------------------------- the service

  class NotificationService {
    var rows: seq<Delivery>
    ghost var log: seq<Attempt>

    constructor ()
      ensures Seen() == World([], []) && Inv(Seen())
    {
      rows, log := [], [];
    }

    ghost function Seen(): World
      reads this
    {
      World(rows, log)
    }

    method GetOrCreate(key: Key) returns (i: nat, created: bool)
      modifies this`rows
      ensures created == FindRow(old(rows), key).None?
      ensures if created then rows == old(rows) + [Delivery(key, Pending, 0, None, None)] && i == |old(rows)|
              else rows == old(rows) && Some(i) == FindRow(old(rows), key)
      ensures i < |rows|
    {
      var found := FindRow(rows, key);
      if found.Some? {
        return found.value, false;
      }
      rows := rows + [Delivery(key, Pending, 0, None, None)];
      return |rows| - 1, true;
    }

    method Deliver(key: Key, decision: Decision, sending: Sending) returns (delivery: Option<nat>)
      modifies this
      ensures Seen() == Delivering(old(Seen()), Call(key, decision, sending))
      ensures delivery.Some? <==> decision == Notify
      ensures delivery.Some? ==> delivery.value < |rows| && rows[delivery.value].key == key
      ensures log != old(log) ==>
        && log == old(log) + [Attempt(key, sending)] && delivery.Some?
        && var row := rows[delivery.value];
        && (sending.Sent? ==> row.status == Delivered && row.providerMessageId == Some(sending.id) && row.error == None)
        && (sending.Fault? ==>
              row.status == (if sending.retryable then Retryable else Failed) && row.error == Some(sending.message))
    {
      if decision != Notify {
        return None;
      }
      var i, created := GetOrCreate(key);
      if !created && rows[i].status == Delivered {
        return Some(i);
      }
      var row := rows[i];
      row := row.(attemptCount := row.attemptCount + 1);
      log := log + [Attempt(key, sending)];
      match sending {
        case Sent(id) =>
          row := row.(providerMessageId := Some(id));
          row := row.(status := Delivered, error := None);
        case Fault(message, retryable) =>
          row := row.(status := if retryable then Retryable else Failed);
          row := row.(error := Some(message));
      }
      rows := rows[i := row];
      return Some(i);
    }
  }
}
