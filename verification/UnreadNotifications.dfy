/** What a receiver has not seen yet. */
module UnreadNotifications {
  import opened Common
  import opened ContextMerge
  import opened Managers
  import opened Notifications

  /** An event leaves its notification unread, whatever was seen before. */
  lemma EventIsUnread(rows: Table, e: Event)
    ensures var r := Notified(rows, e);
            && r != []
            && var n := r[|r| - 1];
               n.key == e.key && !n.isViewed && n.toSend == ToSend(e)
  {
    var matches := Matching(rows, e);
    if matches != [] { assert matches[|matches| - 1] in matches; }
  }

  /** Every notification of this type is mailed at once, if at all, and merges. */
  ghost predicate Prompt(kind: Kind) {
    forall m: Manager | m.Kind() == kind :: m.Immediate() && m.Merges()
  }

  function Unread(rows: Table, k: Key): Table {
    if rows == [] then []
    else
      var n, before := rows[|rows| - 1], Unread(rows[..|rows| - 1], k);
      if n.key == k && !n.isViewed then before + [n] else before
  }

  /** What the events for a key since its receiver last listed them amount to. */
  function DigestSinceView(ops: seq<Op>, k: Key): Option<Digest> {
    if ops == [] then None
    else
      var d := DigestSinceView(ops[..|ops| - 1], k);
      match ops[|ops| - 1]
      case Notify(e) => if e.key == k then Extended(d, e.context) else d
      case Remind(_) => d
      case View(user, organization) =>
        if k.receiver == user && (organization.Some? ==> k.organization == organization) then None else d
  }

  ghost predicate NoneWaiting(rows: Table, k: Key) {
    forall n: Notification | n in rows && n.key == k :: !n.toSend
  }

  lemma UnreadAppend(rows: Table, n: Notification, k: Key)
    ensures Unread(rows + [n], k) == if n.key == k && !n.isViewed then Unread(rows, k) + [n] else Unread(rows, k)
  {
    assert (rows + [n])[..|rows|] == rows;
  }

  lemma {:induction false} UnreadOfOthers(rows: Table, e: Event, k: Key)
    requires NoneWaiting(rows, k) && (e.key == k ==> e.immediate)
    ensures Unread(Others(rows, e), k) == if e.key == k then [] else Unread(rows, k)
    ensures e.key == k ==> Matching(rows, e) == Unread(rows, k)
  {
    if rows != [] {
      var before, n := rows[..|rows| - 1], rows[|rows| - 1];
      assert n in rows && forall m | m in before :: m in rows;
      UnreadOfOthers(before, e, k);
      UnreadAppend(Others(before, e), n, k);
    }
  }

  lemma {:induction false} UnreadAfterReminder(rows: Table, user: nat, k: Key)
    requires NoneWaiting(rows, k)
    ensures Unread(Reminded(rows, user), k) == Unread(rows, k)
  {
    if rows != [] {
      var before, n := rows[..|rows| - 1], rows[|rows| - 1];
      assert n in rows && forall m | m in before :: m in rows;
      UnreadAfterReminder(before, user, k);
      assert Reminded(rows, user)[..|before|] == Reminded(before, user);
    }
  }

  lemma {:induction false} UnreadAfterView(rows: Table, user: nat, organization: Option<nat>, k: Key)
    ensures Unread(Viewed(rows, user, organization), k) ==
              if k.receiver == user && (organization.Some? ==> k.organization == organization) then []
              else Unread(rows, k)
  {
    if rows != [] {
      var before := rows[..|rows| - 1];
      UnreadAfterView(before, user, organization, k);
      assert Viewed(rows, user, organization)[..|before|] == Viewed(before, user, organization);
    }
  }

  lemma StepKeepsNoneWaiting(rows: Table, op: Op, k: Key)
    requires NoneWaiting(rows, k) && Prompt(k.kind)
    ensures NoneWaiting(Step(rows, op), k)
  {
    if op.Notify? {
      var e := op.event;
      var matches := Matching(rows, e);
      if e.key == k { assert e.manager.Kind() == k.kind; }
      if matches != [] { assert matches[|matches| - 1] in matches; }
    }
  }

  lemma StepShowsUnread(rows: Table, ops: seq<Op>, op: Op, k: Key)
    requires Shows(Unread(rows, k), DigestSinceView(ops, k)) && NoneWaiting(rows, k) && Prompt(k.kind)
    ensures Shows(Unread(Step(rows, op), k), DigestSinceView(ops + [op], k))
  {
    hide Mergeable, Merged, Reminded, Viewed, Unread, Matching, Others, NoneWaiting;
    assert (ops + [op])[..|ops|] == ops;
    match op
    case Notify(e) =>
      var matches := Matching(rows, e);
      if e.key == k { assert e.manager.Kind() == k.kind; }
      UnreadOfOthers(rows, e, k);
      UnreadAppend(rows, Fresh(e), k);
      if matches != [] {
        assert matches[|matches| - 1] in matches;
        UnreadAppend(Others(rows, e), Updated(matches[|matches| - 1], e), k);
      }
    case Remind(user) => UnreadAfterReminder(rows, user, k);
    case View(user, organization) => UnreadAfterView(rows, user, organization, k);
  }

  /** Over every run, a key of a prompt type has at most one unread notification, and that one
      is the digest of the key's events since its receiver last listed them. */
  lemma {:induction false} UnreadIsDigest(ops: seq<Op>, k: Key)
    requires Prompt(k.kind)
    ensures Shows(Unread(Run([], ops), k), DigestSinceView(ops, k)) && NoneWaiting(Run([], ops), k)
  {
    if ops != [] {
      var before, op := ops[..|ops| - 1], ops[|ops| - 1];
      assert ops == before + [op];
      UnreadIsDigest(before, k);
      StepShowsUnread(Run([], before), before, op, k);
      StepKeepsNoneWaiting(Run([], before), op, k);
    }
  }

  /** Only the prompt types are safe from piling up unread. */
  lemma NoUnreadPileUpIff(k: Key)
    ensures (forall ops :: |Unread(Run([], ops), k)| <= 1) <==> Prompt(k.kind)
  {
    if Prompt(k.kind) {
      forall ops ensures |Unread(Run([], ops), k)| <= 1 { UnreadIsDigest(ops, k); }
    } else {
      var m: Manager :| m.Kind() == k.kind && !(m.Immediate() && m.Merges());
      PilesUp(m, k);
    }
  }

  lemma PilesUp(m: Manager, k: Key)
    requires m.Kind() == k.kind && !(m.Immediate() && m.Merges())
    ensures exists ops :: |Unread(Run([], ops), k)| > 1
  {
    hide *;
    var e := Event(m, k.sender, k.receiver, k.project, k.organization, true, map[]);
    KeyOfEvent(e, k);
    var ops := [Notify(e), Remind(e.receiver), Notify(e)];
    TwoUnread(e);
    assert |Unread(Run([], ops), k)| > 1;
  }

  lemma KeyOfEvent(e: Event, k: Key)
    requires e.manager.Kind() == k.kind && e.sender == k.sender && e.receiver == k.receiver
    requires e.project == k.project && e.organization == k.organization
    ensures e.key == k && e.immediate == e.manager.Immediate() && e.merge == e.manager.Merges()
  {
  }

  lemma RunSnoc(rows: Table, ops: seq<Op>, op: Op)
    ensures Run(rows, ops + [op]) == Step(Run(rows, ops), op)
  {
    assert (ops + [op])[..|ops|] == ops;
  }

  lemma RunOfThree(a: Op, b: Op, c: Op)
    ensures Run([], [a, b, c]) == Step(Step(Step([], a), b), c)
  {
    assert Run([], []) == [];
    hide *;
    assert [] + [a] == [a] && [a] + [b] == [a, b] && [a, b] + [c] == [a, b, c];
    RunSnoc([], [], a);
    RunSnoc([], [a], b);
    RunSnoc([], [a, b], c);
  }

  lemma TwoUnread(e: Event)
    requires e.mustReceive && !(e.immediate && e.merge)
    ensures |Unread(Run([], [Notify(e), Remind(e.receiver), Notify(e)]), e.key)| == 2
  {
    hide Run, Unread;
    var n := Fresh(e);
    var later := n.(toSend := false);
    RunOfThree(Notify(e), Remind(e.receiver), Notify(e));
    assert Notified([], e) == [n];
    assert Reminded([n], e.receiver) == [later];
    assert [later][..0] == [] && (e.merge ==> !Matches(later, e));
    assert Notified([later], e) == [later] + [n];
    hide Notified, Reminded, Matches;
    UnreadAppend([], later, e.key);
    UnreadAppend([later], n, e.key);
    assert [] + [later] == [later];
    assert |Unread([], e.key)| == 0 by { NoneUnread(e.key); }
  }

  lemma NoneUnread(k: Key)
    ensures Unread([], k) == []
  {
  }
}
