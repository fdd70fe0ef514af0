/** Replies to comments and to project messages. */
module Replies {
  import opened Common
  import opened Forest

  /** `NullTarget`: validating a null target raises an `AttributeError`. */
  datatype Error = ReplyOnReply | ReplyToSelf | NullTarget | NotFound

  datatype Op =
    | Create(id: nat, replyOn: Asked)
    | Update(id: nat, replyOn: Asked)

  /** `validate_reply_on_id`, for a new comment (`None`) or an existing one. */
  function Validate(t: Parents, id: Option<nat>, replyOn: Option<nat>): Option<Error>
    requires replyOn.Some? ==> replyOn.value in t
  {
    if replyOn.None? then Some(NullTarget)
    else if t[replyOn.value].Some? then Some(ReplyOnReply)
    else if id == replyOn then Some(ReplyToSelf)
    else None
  }

  /** The validation is called for a null target too, but not when the request leaves it out. */
  function Step(t: Parents, op: Op): (Parents, Option<Error>) {
    var isNew := op.Create?;
    if isNew == (op.id in t) || (op.replyOn.Parent? && op.replyOn.id !in t) then (t, Some(NotFound))
    else if op.replyOn.Absent? then (if isNew then t[op.id := None] else t, None)
    else
      var target := if op.replyOn.Parent? then Some(op.replyOn.id) else None;
      match Validate(t, if isNew then None else Some(op.id), target)
      case Some(error) => (t, Some(error))
      case None => (t[op.id := target], None)
  }

  function Run(t: Parents, ops: seq<Op>): Parents
    decreases |ops|
  {
    if ops == [] then t else Run(Step(t, ops[0]).0, ops[1..])
  }

  /** A target has no parent, so it cannot be below the comment that becomes its reply. */
  lemma StepKeepsForest(t: Parents, op: Op)
    requires IsForest(t)
    ensures IsForest(Step(t, op).0)
  {
    if Step(t, op).1 == None {
      var target := if op.replyOn.Parent? then Some(op.replyOn.id) else None;
      if op.id !in t {
        NewRowKeepsForest(t, op.id, target);
      } else if target.Some? {
        forall n: nat ensures Up(t, target.value, n) != Some(op.id) {
          assert n > 0 ==> Up(t, target.value, n) == None;
        }
        ReparentKeepsForest(t, op.id, target);
      }
    }
  }

  /** Threads never loop, over any run. */
  lemma {:induction false} RunKeepsForest(t: Parents, ops: seq<Op>)
    requires IsForest(t)
    ensures IsForest(Run(t, ops))
    decreases |ops|
  {
    if ops != [] {
      StepKeepsForest(t, ops[0]);
      RunKeepsForest(Step(t, ops[0]).0, ops[1..]);
    }
  }

  /** Replies are not replied to. */
  ghost predicate OneDeep(t: Parents) {
    forall x, y | x in t && t[x] == Some(y) :: y in t && t[y].None?
  }

  predicate HasReplies(t: Parents, id: nat) {
    exists x :: x in t && t[x] == Some(id)
  }

  /** A request about existing rows fails exactly when its target is null, a reply, or the
      comment itself; otherwise a target named is stored, and one left out stays as it was. */
  lemma AcceptedIff(t: Parents, op: Op)
    requires op.Create? <==> op.id !in t
    requires op.replyOn.Parent? ==> op.replyOn.id in t
    ensures var (t', error) := Step(t, op);
            match op.replyOn
            case Null => error == Some(NullTarget) && t' == t
            case Absent => error == None && t' == if op.id in t then t else t[op.id := None]
            case Parent(target) =>
              if t[target].Some? || target == op.id then error.Some? && t' == t
              else error == None && t' == t[op.id := Some(target)]
  {
  }

  /** Creation keeps threads one deep. An update keeps them so exactly when it does not turn a
      comment that has replies into a reply. */
  lemma OneDeepIff(t: Parents, op: Op)
    requires OneDeep(t)
    ensures OneDeep(Step(t, op).0) <==>
              !(op.Update? && op.id in t && op.replyOn.Parent? && op.replyOn.id in t
                && t[op.replyOn.id].None? && op.replyOn.id != op.id && HasReplies(t, op.id))
  {
    var t' := Step(t, op).0;
    if Step(t, op).1 == None {
      if op.Update? && op.replyOn.Parent? && HasReplies(t, op.id) {
        var x :| x in t && t[x] == Some(op.id);
        assert t[op.id].None? && x != op.id && t'[x] == Some(op.id);
      } else {
        forall x, y | x in t' && t'[x] == Some(y) ensures y in t' && t'[y].None? {
          if x != op.id { assert t[x] == Some(y); }
        }
      }
    }
  }
}
