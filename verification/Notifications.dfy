/** Notifications that wait for the next reminder: events are merged into them as they come. */
module Notifications {
  import opened Common
  import opened ContextMerge
  import opened Managers

  /** What must coincide for two events to share a notification. */
  datatype Key = Key(
    kind: Kind, sender: Option<nat>, receiver: nat, project: Option<nat>, organization: Option<nat>)

  datatype Notification = Notification(key: Key, toSend: bool, isViewed: bool, count: nat, context: Context)

  /** The table in the order of last save, oldest first. */
  type Table = seq<Notification>

  /** One event for one recipient; `mustReceive` is the recipient's setting. */
  datatype Event = Event(
    manager: Manager, sender: Option<nat>, receiver: nat, project: Option<nat>, organization: Option<nat>,
    mustReceive: bool, context: Context)
  {
    const key := Key(manager.Kind(), sender, receiver, project, organization)
    const immediate := manager.Immediate()
    const merge := manager.Merges()
  }

  predicate ToSend(e: Event) {
    e.mustReceive && !e.immediate
  }

  /** The lookup of `update_or_create`. */
  predicate Matches(n: Notification, e: Event) {
    n.key == e.key && n.toSend == ToSend(e) && (e.immediate ==> !n.isViewed)
  }

  function Matching(rows: Table, e: Event): (r: Table)
    ensures forall n | n in r :: n in rows && Matches(n, e)
  {
    if rows == [] then []
    else
      var before := Matching(rows[..|rows| - 1], e);
      if Matches(rows[|rows| - 1], e) then before + [rows[|rows| - 1]] else before
  }

  function Others(rows: Table, e: Event): (r: Table)
    ensures forall n | n in r :: n in rows && !Matches(n, e)
  {
    if rows == [] then []
    else
      var before := Others(rows[..|rows| - 1], e);
      if Matches(rows[|rows| - 1], e) then before else before + [rows[|rows| - 1]]
  }

  function Fresh(e: Event): Notification {
    Notification(e.key, ToSend(e), false, 1, e.context)
  }

  /** The kept match after a merge; when the contexts do not merge, the exception leaves the
      row saved with its old count and context. */
  function Updated(n: Notification, e: Event): Notification {
    if Mergeable(n.context, e.context) then
      n.(isViewed := false, count := n.count + 1, context := Merged(n.context, e.context))
    else n.(isViewed := false)
  }

  /** `update_or_create_notification_for_recipient`: of several matches, the last saved stays. */
  function Notified(rows: Table, e: Event): Table {
    var matches := Matching(rows, e);
    if !e.merge then rows + [Fresh(e)]
    else if matches == [] then rows + [Fresh(e)]
    else Others(rows, e) + [Updated(matches[|matches| - 1], e)]
  }

  function Reminded(rows: Table, user: nat): (r: Table)
    ensures |r| == |rows|
    ensures forall i | 0 <= i < |rows| ::
              r[i] == if rows[i].key.receiver == user then rows[i].(toSend := false) else rows[i]
  {
    seq(|rows|, i requires 0 <= i < |rows| =>
      if rows[i].key.receiver == user then rows[i].(toSend := false) else rows[i])
  }

  function Viewed(rows: Table, user: nat, organization: Option<nat>): (r: Table)
    ensures |r| == |rows|
    ensures forall i | 0 <= i < |rows| ::
              r[i].(isViewed := rows[i].isViewed) == rows[i] && (rows[i].isViewed ==> r[i].isViewed)
  {
    seq(|rows|, i requires 0 <= i < |rows| =>
      if rows[i].key.receiver == user && (organization.Some? ==> rows[i].key.organization == organization)
      then rows[i].(isViewed := true) else rows[i])
  }

  datatype Op =
    | Notify(event: Event)
    | Remind(user: nat)
    | View(user: nat, organization: Option<nat>)

  function Step(rows: Table, op: Op): Table {
    match op
    case Notify(e) => Notified(rows, e)
    case Remind(user) => Reminded(rows, user)
    case View(user, organization) => Viewed(rows, user, organization)
  }

  function Run(rows: Table, ops: seq<Op>): Table {
    if ops == [] then rows else Step(Run(rows, ops[..|ops| - 1]), ops[|ops| - 1])
  }

  // ----- what waits for the reminder -----

  function Pending(rows: Table, k: Key): Table {
    if rows == [] then []
    else
      var n, before := rows[|rows| - 1], Pending(rows[..|rows| - 1], k);
      if n.key == k && n.toSend then before + [n] else before
  }

  /** What the events for a key since its receiver's last reminder amount to. */
  datatype Digest = Digest(count: nat, context: Context)

  function Extended(d: Option<Digest>, c: Context): Option<Digest> {
    match d
    case None => Some(Digest(1, c))
    case Some(was) =>
      if Mergeable(was.context, c) then Some(Digest(was.count + 1, Merged(was.context, c))) else d
  }

  function DigestOf(ops: seq<Op>, k: Key): Option<Digest> {
    if ops == [] then None
    else
      var d := DigestOf(ops[..|ops| - 1], k);
      match ops[|ops| - 1]
      case Notify(e) =>
        if e.key == k && ToSend(e) then Extended(d, e.context) else d
      case Remind(user) => if k.receiver == user then None else d
      case View(_, _) => d
  }

  ghost predicate Shows(pending: Table, d: Option<Digest>) {
    match d
    case None => pending == []
    case Some(d) => |pending| == 1 && pending[0].count == d.count && pending[0].context == d.context
  }

  lemma PendingAppend(rows: Table, n: Notification, k: Key)
    ensures Pending(rows + [n], k) == if n.key == k && n.toSend then Pending(rows, k) + [n] else Pending(rows, k)
  {
    assert (rows + [n])[..|rows|] == rows;
  }

  lemma {:induction false} PendingOfOthers(rows: Table, e: Event, k: Key)
    requires !e.immediate
    ensures Pending(Others(rows, e), k) == if e.key == k && ToSend(e) then [] else Pending(rows, k)
    ensures e.key == k && ToSend(e) ==> Matching(rows, e) == Pending(rows, k)
  {
    if rows != [] {
      var before, n := rows[..|rows| - 1], rows[|rows| - 1];
      PendingOfOthers(before, e, k);
      PendingAppend(Others(before, e), n, k);
    }
  }

  lemma {:induction false} ImmediateIsNotPending(rows: Table, e: Event, k: Key)
    requires e.immediate
    ensures Pending(Others(rows, e), k) == Pending(rows, k)
  {
    if rows != [] {
      var before, n := rows[..|rows| - 1], rows[|rows| - 1];
      ImmediateIsNotPending(before, e, k);
      PendingAppend(Others(before, e), n, k);
    }
  }

  lemma {:induction false} PendingAfterReminder(rows: Table, user: nat, k: Key)
    ensures Pending(Reminded(rows, user), k) == if k.receiver == user then [] else Pending(rows, k)
  {
    if rows != [] {
      var before := rows[..|rows| - 1];
      PendingAfterReminder(before, user, k);
      assert Reminded(rows, user)[..|before|] == Reminded(before, user);
    }
  }

  lemma {:induction false} PendingAfterView(rows: Table, user: nat, organization: Option<nat>, k: Key)
    ensures var was, after := Pending(rows, k), Pending(Viewed(rows, user, organization), k);
            |after| == |was| && forall i | 0 <= i < |was| :: after[i].(isViewed := was[i].isViewed) == was[i]
  {
    if rows != [] {
      var before := rows[..|rows| - 1];
      assert Viewed(rows, user, organization)[..|before|] == Viewed(before, user, organization);
      PendingAfterView(before, user, organization, k);
    }
  }

  /** The row an event saves, and what is left of the others. */
  lemma NotifiedPending(rows: Table, e: Event, k: Key)
    requires e.key == k && ToSend(e) ==> e.merge
    ensures var after := Pending(Notified(rows, e), k);
            var was := Pending(rows, k);
            if !(e.key == k && ToSend(e)) then after == was
            else if was == [] then after == [Fresh(e)]
            else after == [Updated(was[|was| - 1], e)]
  {
    hide Mergeable, Merged, Matching, Others, Pending;
    var matches, others := Matching(rows, e), Others(rows, e);
    if e.key == k && ToSend(e) {
      PendingOfOthers(rows, e, k);
      if matches == [] {
        PendingAppend(rows, Fresh(e), k);
      } else {
        PendingAppend(others, Updated(matches[|matches| - 1], e), k);
        assert matches[|matches| - 1] in matches;
      }
    } else if !e.merge || matches == [] {
      PendingAppend(rows, Fresh(e), k);
    } else {
      if e.immediate { ImmediateIsNotPending(rows, e, k); } else { PendingOfOthers(rows, e, k); }
      PendingAppend(others, Updated(matches[|matches| - 1], e), k);
      assert matches[|matches| - 1] in matches;
    }
  }

  lemma StepShows(rows: Table, ops: seq<Op>, op: Op, k: Key)
    requires Shows(Pending(rows, k), DigestOf(ops, k)) && k.kind != KindProjectCreated
    ensures Shows(Pending(Step(rows, op), k), DigestOf(ops + [op], k))
  {
    hide Mergeable, Merged, Notified, Reminded, Viewed, Pending;
    assert (ops + [op])[..|ops|] == ops;
    match op
    case Notify(e) =>
      NotifiedPending(rows, e, k);
    case Remind(user) =>
      PendingAfterReminder(rows, user, k);
    case View(user, organization) =>
      PendingAfterView(rows, user, organization, k);
  }

  /** Over every run, a merged key has at most one notification waiting to be sent, and that
      one is the digest of the key's events since its receiver's last reminder. */
  lemma {:induction false} PendingIsDigest(ops: seq<Op>, k: Key)
    requires k.kind != KindProjectCreated
    ensures Shows(Pending(Run([], ops), k), DigestOf(ops, k))
  {
    if ops != [] {
      var before, op := ops[..|ops| - 1], ops[|ops| - 1];
      assert ops == before + [op];
      PendingIsDigest(before, k);
      StepShows(Run([], before), before, op, k);
    }
  }

  /** The contexts of the to-be-sent events for a key since the last reminder. */
  function EventsSince(ops: seq<Op>, k: Key): seq<Context> {
    if ops == [] then [] else EventsAfter(EventsSince(ops[..|ops| - 1], k), ops[|ops| - 1], k)
  }

  function EventsAfter(before: seq<Context>, op: Op, k: Key): seq<Context> {
    match op
    case Notify(e) => if e.key == k && ToSend(e) then before + [e.context] else before
    case Remind(user) => if k.receiver == user then [] else before
    case View(_, _) => before
  }

  /** Each context in a notification of its own. */
  ghost predicate OneEach(pending: Table, cs: seq<Context>) {
    |pending| == |cs| && forall i | 0 <= i < |cs| :: pending[i].count == 1 && pending[i].context == cs[i]
  }

  lemma StepOneEach(rows: Table, ops: seq<Op>, op: Op, k: Key)
    requires OneEach(Pending(rows, k), EventsSince(ops, k)) && k.kind == KindProjectCreated
    ensures OneEach(Pending(Step(rows, op), k), EventsSince(ops + [op], k))
  {
    EventsSnoc(ops, op, k);
    hide Pending, Notified, Reminded, Viewed, Fresh, ToSend, EventsSince;
    match op
    case Notify(e) =>
      CreatedNotified(rows, e, k);
    case Remind(user) => PendingAfterReminder(rows, user, k);
    case View(user, organization) => PendingAfterView(rows, user, organization, k);
  }

  lemma EventsSnoc(ops: seq<Op>, op: Op, k: Key)
    ensures EventsSince(ops + [op], k) == EventsAfter(EventsSince(ops, k), op, k)
  {
    assert (ops + [op])[..|ops|] == ops;
  }

  lemma CreatedNotified(rows: Table, e: Event, k: Key)
    requires k.kind == KindProjectCreated
    ensures var was, after := Pending(rows, k), Pending(Notified(rows, e), k);
            if e.key == k && ToSend(e)
            then |after| == |was| + 1 && after[..|was|] == was
                 && after[|was|].count == 1 && after[|was|].context == e.context
            else after == was
  {
    if e.key == k && ToSend(e) {
      OnlyCreated(e.manager);
      PendingAppend(rows, Fresh(e), k);
    } else {
      hide ToSend, Notified, Pending;
      NotifiedPending(rows, e, k);
    }
  }

  lemma OnlyCreated(m: Manager)
    ensures m.Kind() == KindProjectCreated <==> m == ProjectCreated
  {
  }

  /** About created projects, every to-be-sent event since the last reminder waits in a
      notification of its own: no more wait than there were events. */
  lemma {:induction false} CreatedOneEach(ops: seq<Op>, k: Key)
    requires k.kind == KindProjectCreated
    ensures OneEach(Pending(Run([], ops), k), EventsSince(ops, k))
  {
    if ops != [] {
      var before, op := ops[..|ops| - 1], ops[|ops| - 1];
      assert ops == before + [op];
      CreatedOneEach(before, k);
      StepOneEach(Run([], before), before, op, k);
    }
  }

  /** One manager that leaves notifications to be sent does not merge: the notifications of
      a key never pile up exactly when the key is not about a created project. Creation sends
      one event for a project, so that takes a task that is delivered again. */
  lemma NoPileUpIff(k: Key)
    ensures (forall ops :: |Pending(Run([], ops), k)| <= 1) <==> k.kind != KindProjectCreated
  {
    if k.kind != KindProjectCreated {
      forall ops ensures |Pending(Run([], ops), k)| <= 1 { PendingIsDigest(ops, k); }
    } else {
      var e := Event(ProjectCreated, k.sender, k.receiver, k.project, k.organization, true, map[]);
      var once, twice := [Notify(e)], [Notify(e), Notify(e)];
      assert once[..0] == [] && twice[..1] == once;
      assert Run([], once) == [Fresh(e)] && Run([], twice) == [Fresh(e)] + [Fresh(e)];
      PendingAppend([], Fresh(e), k);
      PendingAppend([Fresh(e)], Fresh(e), k);
      assert [] + [Fresh(e)] == [Fresh(e)];
      assert |Pending(Run([], twice), k)| == 2;
    }
  }

  // ----- counts and merged lists -----

  ghost predicate AllShaped(cs: seq<Context>, shapes: map<string, Shape>) {
    forall c | c in cs :: Shaped(c, shapes)
  }

  function ListsAt(cs: seq<Context>, key: string): seq<seq<Entry>>
    requires forall c: Context | c in cs :: key in c && c[key].Entries?
  {
    seq(|cs|, i requires 0 <= i < |cs| => assert cs[i] in cs; cs[i][key].entries)
  }

  ghost predicate AlwaysLists(cs: seq<Context>, key: string) {
    forall c: Context | c in cs :: key in c && c[key].Entries? && c[key].entries != []
  }

  /** One digest of a list of contexts, without the other operations between them. */
  function DigestOfContexts(cs: seq<Context>): Option<Digest> {
    if cs == [] then None else Extended(DigestOfContexts(cs[..|cs| - 1]), cs[|cs| - 1])
  }

  lemma {:induction false} DigestIsOfEvents(ops: seq<Op>, k: Key)
    ensures DigestOf(ops, k) == DigestOfContexts(EventsSince(ops, k))
  {
    if ops != [] {
      var before, op := ops[..|ops| - 1], ops[|ops| - 1];
      DigestIsOfEvents(before, k);
      if op.Notify? {
        var cs := EventsSince(before, k);
        assert (cs + [op.event.context])[..|cs|] == cs;
      }
    }
  }

  lemma {:induction false} ShapedDigest(cs: seq<Context>, shapes: map<string, Shape>)
    requires AllShaped(cs, shapes)
    ensures if cs == [] then DigestOfContexts(cs) == None
            else var d := DigestOfContexts(cs);
                 d.Some? && d.value.count == |cs| && Shaped(d.value.context, shapes)
  {
    if cs != [] {
      var before, c := cs[..|cs| - 1], cs[|cs| - 1];
      assert c in cs && forall x | x in before :: x in cs;
      ShapedDigest(before, shapes);
      if before != [] { ShapedMerge(DigestOfContexts(before).value.context, c, shapes); }
    }
  }

  /** Conservation: when the contexts of a key have fixed shapes, the pending notification
      counts exactly the to-be-sent events since the last reminder, and there is none iff
      there was no such event. */
  lemma PendingCounts(ops: seq<Op>, k: Key, shapes: map<string, Shape>)
    requires k.kind != KindProjectCreated && AllShaped(EventsSince(ops, k), shapes)
    ensures var pending := Pending(Run([], ops), k);
            && (pending == [] <==> EventsSince(ops, k) == [])
            && (pending != [] ==> |pending| == 1 && pending[0].count == |EventsSince(ops, k)|)
  {
    PendingIsDigest(ops, k);
    DigestIsOfEvents(ops, k);
    ShapedDigest(EventsSince(ops, k), shapes);
  }

  lemma {:induction false} DigestLists(cs: seq<Context>, shapes: map<string, Shape>, key: string)
    requires AllShaped(cs, shapes) && AlwaysLists(cs, key) && cs != []
    ensures var d := DigestOfContexts(cs);
            && d.Some? && key in d.value.context
            && d.value.context[key] == Entries(Stored(ListsAt(cs, key)))
  {
    var n := |cs| - 1;
    var before, c := cs[..n], cs[n];
    assert c in cs && forall x | x in before :: x in cs;
    if before != [] {
      DigestLists(before, shapes, key);
      ShapedDigest(before, shapes);
      ShapedMerge(DigestOfContexts(before).value.context, c, shapes);
      assert ListsAt(cs, key)[..n] == ListsAt(before, key);
    }
  }

  /** Under a list-valued key, a notification that stands for several events carries the
      deduplication of all their lists together. */
  lemma PendingListsEverything(ops: seq<Op>, k: Key, shapes: map<string, Shape>, key: string)
    requires k.kind != KindProjectCreated && AllShaped(EventsSince(ops, k), shapes)
    requires AlwaysLists(EventsSince(ops, k), key) && |EventsSince(ops, k)| > 1
    ensures var pending := Pending(Run([], ops), k);
            && |pending| == 1 && key in pending[0].context
            && pending[0].context[key] == Entries(Dedup(Concat(ListsAt(EventsSince(ops, k), key))))
  {
    var cs := EventsSince(ops, k);
    PendingIsDigest(ops, k);
    DigestIsOfEvents(ops, k);
    DigestLists(cs, shapes, key);
    MergingIsAFold(ListsAt(cs, key));
  }

  // Lists of plain values.
  ghost predicate AlwaysPlain(cs: seq<Context>, key: string) {
    forall c: Context | c in cs :: key in c && c[key].Plains?
  }

  function ValuesAt(cs: seq<Context>, key: string): set<int>
    requires forall c: Context | c in cs :: key in c && c[key].Plains?
  {
    if cs == [] then {}
    else
      assert cs[|cs| - 1] in cs && forall c | c in cs[..|cs| - 1] :: c in cs;
      ValuesAt(cs[..|cs| - 1], key) + cs[|cs| - 1][key].values
  }

  lemma {:induction false} DigestValues(cs: seq<Context>, shapes: map<string, Shape>, key: string)
    requires AllShaped(cs, shapes) && AlwaysPlain(cs, key) && cs != []
    ensures var d := DigestOfContexts(cs);
            && d.Some? && key in d.value.context
            && d.value.context[key] == Plains(ValuesAt(cs, key))
  {
    var n := |cs| - 1;
    var before, c := cs[..n], cs[n];
    assert c in cs && forall x | x in before :: x in cs;
    if before != [] {
      DigestValues(before, shapes, key);
      ShapedDigest(before, shapes);
      ShapedMerge(DigestOfContexts(before).value.context, c, shapes);
      MergeFailsIff(FieldOf(DigestOfContexts(before).value.context, key), c[key]);
    }
  }

  /** Under a key of plain values the notification carries the union of all the events' values. */
  lemma PendingUnitesValues(ops: seq<Op>, k: Key, shapes: map<string, Shape>, key: string)
    requires k.kind != KindProjectCreated && AllShaped(EventsSince(ops, k), shapes)
    requires AlwaysPlain(EventsSince(ops, k), key) && EventsSince(ops, k) != []
    ensures var pending := Pending(Run([], ops), k);
            && |pending| == 1 && key in pending[0].context
            && pending[0].context[key] == Plains(ValuesAt(EventsSince(ops, k), key))
  {
    PendingIsDigest(ops, k);
    DigestIsOfEvents(ops, k);
    DigestValues(EventsSince(ops, k), shapes, key);
  }

  /** The notification shows the fields of the last event, and its single values. */
  lemma PendingIsLatest(ops: seq<Op>, k: Key, shapes: map<string, Shape>)
    requires k.kind != KindProjectCreated && AllShaped(EventsSince(ops, k), shapes) && EventsSince(ops, k) != []
    ensures var pending, cs := Pending(Run([], ops), k), EventsSince(ops, k);
            var last := cs[|cs| - 1];
            && |pending| == 1 && pending[0].context.Keys == last.Keys
            && forall key | key in last && last[key].Scalar? :: pending[0].context[key] == last[key]
  {
    var cs := EventsSince(ops, k);
    PendingIsDigest(ops, k);
    DigestIsOfEvents(ops, k);
    ShapedDigest(cs, shapes);
    var before, c := cs[..|cs| - 1], cs[|cs| - 1];
    assert c in cs && forall x | x in before :: x in cs;
    if before != [] {
      ShapedDigest(before, shapes);
      ShapedMerge(DigestOfContexts(before).value.context, c, shapes);
    }
  }

  // ----- the lookup -----

  lemma BagSnoc(a: Table, b: Table, before: Table, n: Notification)
    requires multiset(a) + multiset(b) == multiset(before)
    ensures multiset(a + [n]) + multiset(b) == multiset(before + [n])
    ensures multiset(a) + multiset(b + [n]) == multiset(before + [n])
  {
  }

  /** Matching rows and the others make up the table. */
  lemma {:induction false} MatchingAndOthers(rows: Table, e: Event)
    ensures multiset(Matching(rows, e)) + multiset(Others(rows, e)) == multiset(rows)
  {
    if rows != [] {
      var before, n := rows[..|rows| - 1], rows[|rows| - 1];
      var a, b := Matching(before, e), Others(before, e);
      MatchingAndOthers(before, e);
      BagSnoc(a, b, before, n);
      assert rows == before + [n];
      if Matches(n, e) {
        assert Matching(rows, e) == a + [n] && Others(rows, e) == b;
      } else {
        assert Matching(rows, e) == a && Others(rows, e) == b + [n];
      }
    }
  }
}
