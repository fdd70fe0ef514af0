/** The notifications of one key, and of receivers who want no mail. */
module UnsentNotifications {
  import opened Common
  import opened ContextMerge
  import opened Managers
  import opened Notifications
  import opened UnreadNotifications

  // ----- one key at a time -----

  /** All notifications of a key. */
  function OfKey(rows: Table, k: Key): Table {
    if rows == [] then []
    else
      var n, before := rows[|rows| - 1], OfKey(rows[..|rows| - 1], k);
      if n.key == k then before + [n] else before
  }

  lemma OfKeyAppend(rows: Table, n: Notification, k: Key)
    ensures OfKey(rows + [n], k) == if n.key == k then OfKey(rows, k) + [n] else OfKey(rows, k)
  {
    assert (rows + [n])[..|rows|] == rows;
  }

  lemma {:induction false} OfKeyOthers(rows: Table, e: Event, k: Key)
    ensures e.key != k ==> OfKey(Others(rows, e), k) == OfKey(rows, k)
    ensures e.key == k && !e.immediate && NoneWaiting(rows, k) && !ToSend(e) ==>
              OfKey(Others(rows, e), k) == [] && Matching(rows, e) == OfKey(rows, k)
  {
    if rows != [] {
      var before, n := rows[..|rows| - 1], rows[|rows| - 1];
      assert n in rows && forall m | m in before :: m in rows;
      OfKeyOthers(before, e, k);
      OfKeyAppend(Others(before, e), n, k);
    }
  }

  /** An event leaves the notifications of all other keys as they are, in order; one that does
      not merge adds a notification of its own to those of its key. */
  lemma EventKeepsOthers(rows: Table, e: Event, k: Key)
    ensures k != e.key ==> OfKey(Notified(rows, e), k) == OfKey(rows, k)
    ensures !e.merge ==>
              var was, after := OfKey(rows, e.key), OfKey(Notified(rows, e), e.key);
              && |after| == |was| + 1 && after[..|was|] == was
              && after[|was|].count == 1 && after[|was|].context == e.context
  {
    var matches, others := Matching(rows, e), Others(rows, e);
    OfKeyOthers(rows, e, k);
    OfKeyAppend(rows, Fresh(e), k);
    OfKeyAppend(rows, Fresh(e), e.key);
    if matches != [] {
      assert matches[|matches| - 1] in matches;
      OfKeyAppend(others, Updated(matches[|matches| - 1], e), k);
    }
  }

  lemma {:induction false} OfKeyAfterReminder(rows: Table, user: nat, k: Key)
    requires NoneWaiting(rows, k)
    ensures OfKey(Reminded(rows, user), k) == OfKey(rows, k)
  {
    if rows != [] {
      var before, n := rows[..|rows| - 1], rows[|rows| - 1];
      assert n in rows && forall m | m in before :: m in rows;
      OfKeyAfterReminder(before, user, k);
      assert Reminded(rows, user)[..|before|] == Reminded(before, user);
    }
  }

  lemma {:induction false} OfKeyAfterView(rows: Table, user: nat, organization: Option<nat>, k: Key)
    ensures var was, after := OfKey(rows, k), OfKey(Viewed(rows, user, organization), k);
            |after| == |was| && forall i | 0 <= i < |was| :: after[i].(isViewed := was[i].isViewed) == was[i]
  {
    if rows != [] {
      var before := rows[..|rows| - 1];
      assert Viewed(rows, user, organization)[..|before|] == Viewed(before, user, organization);
      OfKeyAfterView(before, user, organization, k);
    }
  }

  // ----- a receiver who wants no mail -----

  /** Every notification of this type waits for the reminder, if it is sent at all, and merges. */
  ghost predicate Delayed(kind: Kind) {
    forall m: Manager | m.Kind() == kind :: !m.Immediate() && m.Merges()
  }

  ghost predicate NeverSent(ops: seq<Op>, k: Key) {
    forall op | op in ops && op.Notify? && op.event.key == k :: !op.event.mustReceive
  }

  /** What all the events for a key amount to. */
  function DigestOfAll(ops: seq<Op>, k: Key): Option<Digest> {
    if ops == [] then None else DigestAfter(DigestOfAll(ops[..|ops| - 1], k), ops[|ops| - 1], k)
  }

  function DigestAfter(d: Option<Digest>, op: Op, k: Key): Option<Digest> {
    if op.Notify? && op.event.key == k then Extended(d, op.event.context) else d
  }

  lemma StepShowsAll(rows: Table, ops: seq<Op>, op: Op, k: Key)
    requires Shows(OfKey(rows, k), DigestOfAll(ops, k)) && NoneWaiting(rows, k)
    requires Delayed(k.kind) && NeverSent([op], k)
    ensures Shows(OfKey(Step(rows, op), k), DigestOfAll(ops + [op], k)) && NoneWaiting(Step(rows, op), k)
  {
    hide Delayed, Notified, Reminded, Viewed, OfKey, NoneWaiting, Extended;
    DigestOfAllSnoc(ops, op, k);
    StaysUnsent(rows, op, k);
    assert op in [op];
    hide DigestOfAll;
    match op
    case Notify(e) => NotifiedShowsAll(rows, DigestOfAll(ops, k), e, k);
    case Remind(user) => OfKeyAfterReminder(rows, user, k);
    case View(user, organization) => OfKeyAfterView(rows, user, organization, k);
  }

  lemma DigestOfAllSnoc(ops: seq<Op>, op: Op, k: Key)
    ensures DigestOfAll(ops + [op], k) == DigestAfter(DigestOfAll(ops, k), op, k)
  {
    assert (ops + [op])[..|ops|] == ops;
  }

  lemma NotifiedShowsAll(rows: Table, d: Option<Digest>, e: Event, k: Key)
    requires Shows(OfKey(rows, k), d) && NoneWaiting(rows, k) && Delayed(k.kind)
    requires e.key == k ==> !e.mustReceive
    ensures Shows(OfKey(Notified(rows, e), k), if e.key == k then Extended(d, e.context) else d)
  {
    hide Delayed, Mergeable, Merged, Notified, OfKey, NoneWaiting, Manager.Kind, Manager.Immediate, Manager.Merges;
    if e.key == k {
      DelayedEvent(e, k);
      UnsentNotified(rows, e);
    } else {
      EventKeepsOthers(rows, e, k);
    }
  }

  lemma DelayedEvent(e: Event, k: Key)
    requires Delayed(k.kind) && e.key == k
    ensures !e.immediate && e.merge
  {
    hide Manager.Kind, Manager.Immediate, Manager.Merges;
    assert e.manager.Kind() == k.kind;
  }

  lemma UnsentNotified(rows: Table, e: Event)
    requires !e.immediate && e.merge && !e.mustReceive && NoneWaiting(rows, e.key)
    ensures var was, after := OfKey(rows, e.key), OfKey(Notified(rows, e), e.key);
            after == if was == [] then [Fresh(e)] else [Updated(was[|was| - 1], e)]
  {
    hide Mergeable, Merged;
    var matches := Matching(rows, e);
    OfKeyOthers(rows, e, e.key);
    OfKeyAppend(rows, Fresh(e), e.key);
    if matches != [] {
      assert matches[|matches| - 1] in matches;
      OfKeyAppend(Others(rows, e), Updated(matches[|matches| - 1], e), e.key);
    }
  }

  lemma StaysUnsent(rows: Table, op: Op, k: Key)
    requires NoneWaiting(rows, k) && NeverSent([op], k)
    ensures NoneWaiting(Step(rows, op), k)
  {
    assert op in [op];
    if op.Notify? {
      var matches := Matching(rows, op.event);
      if matches != [] { assert matches[|matches| - 1] in matches; }
    }
  }

  /** Over every run, a receiver who wants no mail about a delayed type has at most one
      notification for a key, the digest of all its events; none ever waits to be sent. */
  lemma {:induction false} UnsentIsDigest(ops: seq<Op>, k: Key)
    requires Delayed(k.kind) && NeverSent(ops, k)
    ensures Shows(OfKey(Run([], ops), k), DigestOfAll(ops, k)) && NoneWaiting(Run([], ops), k)
  {
    if ops != [] {
      var before, op := ops[..|ops| - 1], ops[|ops| - 1];
      assert ops == before + [op] && op in ops && forall o | o in before :: o in ops;
      UnsentIsDigest(before, k);
      StepShowsAll(Run([], before), before, op, k);
    }
  }
}
