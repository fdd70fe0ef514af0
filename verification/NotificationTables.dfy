/** The notification code as it runs, on a table updated in place. */
module NotificationTables {
  import opened Common
  import opened ContextMerge
  import opened Managers
  import opened Notifications

  /** A manager with everything its events have in common. */
  datatype Batch = Batch(
    manager: Manager, sender: Option<nat>, project: Option<nat>, organization: Option<nat>, context: Context)
  {
    function For(recipient: nat, mustReceive: set<nat>): Event {
      Event(manager, sender, recipient, project, organization, recipient in mustReceive, context)
    }
  }

  /** The contexts of the event and of the notification it goes into are compatible. */
  predicate MergesInto(rows: Table, e: Event) {
    var matches := Matching(rows, e);
    e.merge && matches != [] ==> Mergeable(matches[|matches| - 1].context, e.context)
  }

  /** An event that merges counts and shows its own fields, single values as they come; one
      that does not leaves count and context of the notification it found. */
  lemma EventOutcome(rows: Table, e: Event)
    ensures var matches, r := Matching(rows, e), Notified(rows, e);
            && r != []
            && var n := r[|r| - 1];
               if MergesInto(rows, e) then
                 && n.context.Keys == e.context.Keys
                 && (forall key | key in e.context && e.context[key].Scalar? :: n.context[key] == e.context[key])
                 && n.count == if e.merge && matches != [] then matches[|matches| - 1].count + 1 else 1
               else
                 && e.merge && matches != []
                 && n.count == matches[|matches| - 1].count && n.context == matches[|matches| - 1].context
  {
  }

  function Events(b: Batch, recipients: seq<nat>, mustReceive: set<nat>): (ops: seq<Op>)
    ensures |ops| == |recipients|
    ensures forall i | 0 <= i < |ops| :: ops[i] == Notify(b.For(recipients[i], mustReceive))
  {
    seq(|recipients|, i requires 0 <= i < |recipients| => Notify(b.For(recipients[i], mustReceive)))
  }

  /** Whether the event for the `i`-th recipient finds a notification it can be merged into, or
      none at all. */
  ghost predicate MergesAt(rows: Table, b: Batch, recipients: seq<nat>, mustReceive: set<nat>, i: nat)
    requires i < |recipients|
  {
    MergesInto(Run(rows, Events(b, recipients[..i], mustReceive)), b.For(recipients[i], mustReceive))
  }

  ghost predicate Subsequence(a: seq<nat>, b: seq<nat>) {
    a == [] ||
    (b != [] &&
     (if a[|a| - 1] == b[|b| - 1] then Subsequence(a[..|a| - 1], b[..|b| - 1])
      else Subsequence(a, b[..|b| - 1])))
  }

  /** Emailed are the recipients who must be told at once, in order and once for each time they
      are listed. */
  ghost predicate EmailedTo(b: Batch, served: seq<nat>, mustReceive: set<nat>, emailed: seq<nat>) {
    && (forall u :: multiset(emailed)[u] ==
          if u in mustReceive && b.manager.Immediate() then multiset(served)[u] else 0)
    && Subsequence(emailed, served)
  }

  lemma EmailedNext(b: Batch, served: seq<nat>, mustReceive: set<nat>, emailed: seq<nat>, next: nat)
    requires EmailedTo(b, served, mustReceive, emailed)
    ensures EmailedTo(b, served + [next], mustReceive,
                      if next in mustReceive && b.manager.Immediate() then emailed + [next] else emailed)
  {
    assert (served + [next])[..|served|] == served && (emailed + [next])[..|emailed|] == emailed;
    if emailed != [] && emailed[|emailed| - 1] == next {
      assert next in multiset(emailed);
    }
  }

  /** What sending events to recipients comes to, `done` of them before the end of the loop.
      Only the last event fails to merge, and only if the loop ends with an exception; those
      before it are followed by an email where one is due. When there are emails, nothing of
      what waits to be sent changes. */
  ghost predicate Sent(
      start: Table, b: Batch, recipients: seq<nat>, mustReceive: set<nat>,
      done: nat, ok: bool, rows: Table, emailed: seq<nat>)
  {
    && done <= |recipients| && (if ok then done == |recipients| else done > 0)
    && rows == Run(start, Events(b, recipients[..done], mustReceive))
    && (forall i | 0 <= i < done :: MergesAt(start, b, recipients, mustReceive, i) == (ok || i < done - 1))
    && EmailedTo(b, recipients[..if ok then done else done - 1], mustReceive, emailed)
    && (emailed != [] ==> SameWaiting(start, rows))
  }

  ghost predicate SameWaiting(rows: Table, rows': Table) {
    forall k: Key :: Pending(rows', k) == Pending(rows, k)
  }

  /** The first `done` events all merged, and this is what they led to. */
  ghost predicate Served(
      start: Table, b: Batch, recipients: seq<nat>, mustReceive: set<nat>, done: nat, rows: Table, emailed: seq<nat>)
  {
    && done <= |recipients|
    && rows == Run(start, Events(b, recipients[..done], mustReceive))
    && (forall i | 0 <= i < done :: MergesAt(start, b, recipients, mustReceive, i))
    && EmailedTo(b, recipients[..done], mustReceive, emailed)
  }

  lemma ServedFirst(start: Table, b: Batch, recipients: seq<nat>, mustReceive: set<nat>)
    ensures Served(start, b, recipients, mustReceive, 0, start, [])
  {
    assert recipients[..0] == [];
  }

  lemma EventIs(b: Batch, u: nat, mustReceive: set<nat>)
    ensures var e := b.For(u, mustReceive);
            e.receiver == u && e.mustReceive == (u in mustReceive) && e.immediate == b.manager.Immediate()
  {
  }

  lemma MergesHere(start: Table, b: Batch, recipients: seq<nat>, mustReceive: set<nat>, i: nat)
    requires i < |recipients|
    ensures MergesAt(start, b, recipients, mustReceive, i) ==
              MergesInto(Run(start, Events(b, recipients[..i], mustReceive)), b.For(recipients[i], mustReceive))
  {
  }

  lemma ServedNext(
      start: Table, b: Batch, recipients: seq<nat>, mustReceive: set<nat>, done: nat, rows: Table, emailed: seq<nat>)
    requires Served(start, b, recipients, mustReceive, done, rows, emailed) && done < |recipients|
    ensures var u := recipients[done];
            var e := b.For(u, mustReceive);
            if MergesInto(rows, e) then
              Served(start, b, recipients, mustReceive, done + 1, Notified(rows, e),
                     if u in mustReceive && b.manager.Immediate() then emailed + [u] else emailed)
            else Sent(start, b, recipients, mustReceive, done + 1, false, Notified(rows, e), emailed)
  {
    hide Run, Notified, MergesInto, MergesAt, EmailedTo, Events, SameWaiting;
    MergesHere(start, b, recipients, mustReceive, done);
    assert recipients[..done + 1] == recipients[..done] + [recipients[done]];
    EventsNext(start, b, recipients, mustReceive, done);
    EmailedNext(b, recipients[..done], mustReceive, emailed, recipients[done]);
    NothingMoreWaits(start, b, recipients[..done + 1], mustReceive, recipients[..done], emailed);
  }

  lemma AllServed(
      start: Table, b: Batch, recipients: seq<nat>, mustReceive: set<nat>, rows: Table, emailed: seq<nat>)
    requires Served(start, b, recipients, mustReceive, |recipients|, rows, emailed)
    ensures Sent(start, b, recipients, mustReceive, |recipients|, true, rows, emailed)
  {
    hide Run, EmailedTo, Events, MergesAt, SameWaiting;
    assert recipients[..|recipients|] == recipients;
    NothingMoreWaits(start, b, recipients, mustReceive, recipients, emailed);
  }

  lemma EventsNext(rows: Table, b: Batch, recipients: seq<nat>, mustReceive: set<nat>, i: nat)
    requires i < |recipients|
    ensures Run(rows, Events(b, recipients[..i + 1], mustReceive)) ==
              Notified(Run(rows, Events(b, recipients[..i], mustReceive)), b.For(recipients[i], mustReceive))
  {
    assert recipients[..i + 1][..i] == recipients[..i];
    assert Events(b, recipients[..i + 1], mustReceive)[..i] == Events(b, recipients[..i], mustReceive);
  }

  /** Events that are mailed at once leave nothing waiting. */
  lemma {:induction false} ImmediateWaitsNot(rows: Table, b: Batch, recipients: seq<nat>, mustReceive: set<nat>, k: Key)
    requires b.manager.Immediate()
    ensures Pending(Run(rows, Events(b, recipients, mustReceive)), k) == Pending(rows, k)
  {
    if recipients != [] {
      var n := |recipients| - 1;
      ImmediateWaitsNot(rows, b, recipients[..n], mustReceive, k);
      EventsNext(rows, b, recipients, mustReceive, n);
      assert recipients[..n + 1] == recipients;
      NotifiedPending(Run(rows, Events(b, recipients[..n], mustReceive)), b.For(recipients[n], mustReceive), k);
    }
  }

  lemma NothingMoreWaits(
      rows: Table, b: Batch, recipients: seq<nat>, mustReceive: set<nat>, served: seq<nat>, emailed: seq<nat>)
    requires EmailedTo(b, served, mustReceive, emailed)
    ensures emailed != [] ==> SameWaiting(rows, Run(rows, Events(b, recipients, mustReceive)))
  {
    if emailed != [] {
      assert emailed[0] in multiset(emailed);
      forall k: Key ensures Pending(Run(rows, Events(b, recipients, mustReceive)), k) == Pending(rows, k) {
        ImmediateWaitsNot(rows, b, recipients, mustReceive, k);
      }
    }
  }

  function WaitingFor(rows: Table, user: nat): (r: Table)
    ensures forall n :: n in r <==> n in rows && n.key.receiver == user && n.toSend
  {
    if rows == [] then []
    else
      var n, before := rows[|rows| - 1], WaitingFor(rows[..|rows| - 1], user);
      if n.key.receiver == user && n.toSend then before + [n] else before
  }

  datatype Mail = Mail(user: nat, notifications: Table)

  class NotificationTable {
    var rows: Table

    constructor ()
      ensures rows == []
    {
      rows := [];
    }

    method UpdateOrCreateForRecipient(e: Event) returns (ok: bool)
      modifies this
      ensures rows == Notified(old(rows), e) && ok == MergesInto(old(rows), e)
    {
      if !e.merge {
        rows := rows + [Fresh(e)];
        return true;
      }
      var existing := Matching(rows, e);
      if existing == [] {
        rows := rows + [Fresh(e)];
        return true;
      }
      var notification := existing[|existing| - 1].(isViewed := false);
      rows := Others(rows, e) + [notification];
      if !Mergeable(notification.context, e.context) { return false; }
      var context := Merged(notification.context, e.context);
      notification := notification.(count := notification.count + 1, context := context);
      rows := rows[|rows| - 1 := notification];
      return true;
    }

    /** One event for each recipient; the first that does not merge ends the loop. */
    method CreateAndSendNotifications(b: Batch, recipients: seq<nat>, mustReceive: set<nat>)
      returns (done: nat, ok: bool, emailed: seq<nat>)
      modifies this
      ensures Sent(old(rows), b, recipients, mustReceive, done, ok, rows, emailed)
    {
      done, ok, emailed := 0, true, [];
      hide *;
      ServedFirst(rows, b, recipients, mustReceive);
      while done < |recipients|
        invariant done <= |recipients| && ok
        invariant Served(old(rows), b, recipients, mustReceive, done, rows, emailed)
      {
        var e := b.For(recipients[done], mustReceive);
        EventIs(b, recipients[done], mustReceive);
        ServedNext(old(rows), b, recipients, mustReceive, done, rows, emailed);
        ok := UpdateOrCreateForRecipient(e);
        done := done + 1;
        if !ok { return; }
        if e.mustReceive && e.immediate {
          emailed := emailed + [e.receiver];
        }
      }
      AllServed(old(rows), b, recipients, mustReceive, rows, emailed);
    }

    /** A mail to each user with something waiting, listing all of it; then nothing waits. */
    method SendReminder(users: seq<nat>) returns (mails: seq<Mail>)
      modifies this
      ensures rows == Run(old(rows), Reminders(users))
      ensures forall u | u in users :: WaitingFor(rows, u) == []
      ensures forall m | m in mails :: m.user in users && m.notifications == WaitingFor(old(rows), m.user) != []
      ensures forall u | u in users && WaitingFor(old(rows), u) != [] ::
                Mail(u, WaitingFor(old(rows), u)) in mails
      ensures forall i, j | 0 <= i < j < |mails| :: mails[i].user != mails[j].user
    {
      mails := [];
      RemindedNobody(rows);
      for i := 0 to |users|
        invariant rows == Run(old(rows), Reminders(users[..i]))
        invariant RemindedSoFar(old(rows), users[..i], rows, mails)
      {
        hide RemindedSoFar, Reminded, WaitingFor;
        var user := users[i];
        assert users[..i + 1] == users[..i] + [user];
        assert Reminders(users[..i + 1])[..i] == Reminders(users[..i]);
        RemindNext(old(rows), users[..i], rows, mails, user);
        var notifications := WaitingFor(rows, user);
        if |notifications| > 0 {
          mails := mails + [Mail(user, notifications)];
          rows := Reminded(rows, user);
        } else {
          NothingToRemind(rows, user);
        }
      }
      assert users[..|users|] == users;
    }
  }

  lemma RemindedNobody(start: Table)
    ensures RemindedSoFar(start, [], start, [])
  {
  }

  // After the reminders to `done`, what waits and what was sent.
  ghost predicate RemindedSoFar(start: Table, done: seq<nat>, rows: Table, mails: seq<Mail>) {
    && (forall u :: WaitingFor(rows, u) == if u in done then [] else WaitingFor(start, u))
    && (forall m | m in mails :: m.user in done && m.notifications == WaitingFor(start, m.user) != [])
    && (forall u | u in done && WaitingFor(start, u) != [] :: Mail(u, WaitingFor(start, u)) in mails)
    && (forall i, j | 0 <= i < j < |mails| :: mails[i].user != mails[j].user)
  }

  lemma RemindNext(start: Table, done: seq<nat>, rows: Table, mails: seq<Mail>, user: nat)
    requires RemindedSoFar(start, done, rows, mails)
    ensures var waiting := WaitingFor(rows, user);
            RemindedSoFar(start, done + [user], Reminded(rows, user),
                          if waiting != [] then mails + [Mail(user, waiting)] else mails)
  {
    hide WaitingFor, Reminded;
    forall u: nat ensures WaitingFor(Reminded(rows, user), u) == if u == user then [] else WaitingFor(rows, u) {
      WaitingAfterReminder(rows, user, u);
    }
  }

  function Reminders(users: seq<nat>): (ops: seq<Op>)
    ensures |ops| == |users| && forall i | 0 <= i < |users| :: ops[i] == Remind(users[i])
  {
    seq(|users|, i requires 0 <= i < |users| => Remind(users[i]))
  }

  lemma {:induction false} WaitingAfterReminder(rows: Table, user: nat, u: nat)
    ensures WaitingFor(Reminded(rows, user), u) == if u == user then [] else WaitingFor(rows, u)
  {
    if rows != [] {
      var before := rows[..|rows| - 1];
      WaitingAfterReminder(before, user, u);
      assert Reminded(rows, user)[..|before|] == Reminded(before, user);
    }
  }

  lemma {:induction false} NothingToRemind(rows: Table, user: nat)
    requires WaitingFor(rows, user) == []
    ensures Reminded(rows, user) == rows
  {
    if rows != [] {
      var before := rows[..|rows| - 1];
      NothingToRemind(before, user);
      assert Reminded(rows, user)[..|before|] == Reminded(before, user);
      assert rows == before + [rows[|rows| - 1]];
    }
  }
}
