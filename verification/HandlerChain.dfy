/**
  The request chain: middlewares before, a handler, middlewares after, and a reply.
  The six continuation procedures call each other as the state changes between success
  and error; they are proved equal to a plain fold over the middlewares.
 */
module HandlerChain {
  import opened Prelude

  /** How things stand: fine, or an error to be caught. */
  datatype Status<+E> = Fine | Fault(error: E)

  datatype Before<!Q, !E> = Before(before: Q -> (Q, Status<E>), catch: (Q, E) -> (Q, Status<E>))

  datatype After<!Q, !R, !E> = After(after: (Q, R) -> (Q, R, Status<E>), catch: (Q, R, E) -> (Q, R, Status<E>))

  /** A handler that returns None goes on by itself, and nothing follows. */
  type Handler<!Q, !R, !E> = (Q, R) -> Option<(Q, R, Status<E>)>

  /** What is called, with what; `index` is the middleware's place in its list. */
  datatype Event<Q, R, E> =
    | CallBefore(index: nat, q: Q)
    | CatchBefore(index: nat, q: Q, e: E)
    | CallHandler(q: Q, r: R)
    | CallAfter(index: nat, q: Q, r: R)
    | CatchAfter(index: nat, q: Q, r: R, e: E)
    | SendReply(q: Q, r: R)

  datatype Links<!Q, !R, !E> =
    Links(befores: seq<Before<Q, E>>, afters: seq<After<Q, R, E>>, handler: Handler<Q, R, E>)

  // ---- One middleware ----

  function StepBefore<Q, E>(m: Before<Q, E>, q: Q, st: Status<E>): (Q, Status<E>) {
    if st.Fine? then m.before(q) else m.catch(q, st.error)
  }

  function BeforeEvent<Q, R, E>(i: nat, q: Q, st: Status<E>): Event<Q, R, E> {
    if st.Fine? then CallBefore(i, q) else CatchBefore(i, q, st.error)
  }

  function StepAfter<Q, R, E>(m: After<Q, R, E>, q: Q, r: R, st: Status<E>): (Q, R, Status<E>) {
    if st.Fine? then m.after(q, r) else m.catch(q, r, st.error)
  }

  function AfterEvent<Q, R, E>(i: nat, q: Q, r: R, st: Status<E>): Event<Q, R, E> {
    if st.Fine? then CallAfter(i, q, r) else CatchAfter(i, q, r, st.error)
  }

  // ---- The continuations as one recursion ----

  function FromAfter<Q, R, E>(c: Links<Q, R, E>, i: nat, q: Q, r: R, st: Status<E>): seq<Event<Q, R, E>>
    decreases |c.afters| - i
  {
    if i >= |c.afters| then [SendReply(q, r)]
    else
      var (q', r', st') := StepAfter(c.afters[i], q, r, st);
      [AfterEvent(i, q, r, st)] + FromAfter(c, i + 1, q', r', st')
  }

  /** The handler runs only if all is fine. */
  function FromHandler<Q, R, E>(c: Links<Q, R, E>, q: Q, r: R, st: Status<E>): seq<Event<Q, R, E>> {
    if st.Fault? then FromAfter(c, 0, q, r, st)
    else
      match c.handler(q, r)
      case None => [CallHandler(q, r)]
      case Some((q', r', st')) => [CallHandler(q, r)] + FromAfter(c, 0, q', r', st')
  }

  function FromBefore<Q, R, E>(c: Links<Q, R, E>, i: nat, q: Q, r: R, st: Status<E>): seq<Event<Q, R, E>>
    decreases |c.befores| - i
  {
    if i >= |c.befores| then FromHandler(c, q, r, st)
    else
      var (q', st') := StepBefore(c.befores[i], q, st);
      [BeforeEvent(i, q, st)] + FromBefore(c, i + 1, q', r, st')
  }

  // ---- The chain ----

  class Chain<Q, R, E> {
    var befores: seq<Before<Q, E>>
    var afters: seq<After<Q, R, E>>
    var handler: Handler<Q, R, E>

    ghost function Config(): Links<Q, R, E>
      reads this
    {
      Links(befores, afters, handler)
    }

    constructor (handler: Handler<Q, R, E>)
      ensures Config() == Links([], [], handler)
    {
      befores, afters, this.handler := [], [], handler;
    }

    method Link(before: Before<Q, E>, after: After<Q, R, E>)
      modifies this`befores, this`afters
      ensures Config() == Links(old(befores) + [before], old(afters) + [after], old(handler))
    {
      befores := befores + [before];
      afters := afters + [after];
    }

    method LinkBefore(before: Before<Q, E>)
      modifies this`befores
      ensures Config() == Links(old(befores) + [before], old(afters), old(handler))
    {
      befores := befores + [before];
    }

    method LinkAfter(after: After<Q, R, E>)
      modifies this`afters
      ensures Config() == Links(old(befores), old(afters) + [after], old(handler))
    {
      afters := afters + [after];
    }

    method LinkAround(around: Handler<Q, R, E> -> Handler<Q, R, E>)
      modifies this`handler
      ensures Config() == Links(old(befores), old(afters), around(old(handler)))
    {
      handler := around(handler);
    }

    method Reply(q: Q, r: R) returns (trace: seq<Event<Q, R, E>>)
      ensures trace == [SendReply(q, r)]
    {
      trace := [SendReply(q, r)];
    }

    method FailFromBefore(q0: Q, r: R, index: nat, e0: E) returns (trace: seq<Event<Q, R, E>>)
      ensures trace == FromBefore(Config(), index, q0, r, Fault(e0))
      decreases 1, |befores| - index, 1
    {
      var q, e := q0, e0;
      trace := [];
      if index >= |befores| {
        trace := FailFromHandler(q, r, e);
        return;
      }
      var i := index;
      while i < |befores|
        invariant index <= i <= |befores|
        invariant trace + FromBefore(Config(), i, q, r, Fault(e)) == FromBefore(Config(), index, q0, r, Fault(e0))
      {
        var (q', st) := befores[i].catch(q, e);
        Unfold(trace, CatchBefore(i, q, e), FromBefore(Config(), i + 1, q', r, st));
        trace := trace + [CatchBefore(i, q, e)];
        if st.Fine? {
          var rest := ContinueFromBefore(q', r, i + 1);
          trace := trace + rest;
          return;
        }
        q, e, i := q', st.error, i + 1;
      }
      var rest := FailFromHandler(q, r, e);
      trace := trace + rest;
    }

    method ContinueFromBefore(q0: Q, r: R, index: nat) returns (trace: seq<Event<Q, R, E>>)
      ensures trace == FromBefore(Config(), index, q0, r, Fine)
      decreases 1, |befores| - index, 1
    {
      var q := q0;
      trace := [];
      if index >= |befores| {
        trace := ContinueFromHandler(q, r, false);
        return;
      }
      var i := index;
      while i < |befores|
        invariant index <= i <= |befores|
        invariant trace + FromBefore(Config(), i, q, r, Fine) == FromBefore(Config(), index, q0, r, Fine)
      {
        var (q', st) := befores[i].before(q);
        Unfold(trace, CallBefore(i, q), FromBefore(Config(), i + 1, q', r, st));
        trace := trace + [CallBefore(i, q)];
        if st.Fault? {
          var rest := FailFromBefore(q', r, i + 1, st.error);
          trace := trace + rest;
          return;
        }
        q, i := q', i + 1;
      }
      var rest := ContinueFromHandler(q, r, true);
      trace := trace + rest;
    }

    /** An error does not reach the handler. */
    method FailFromHandler(q: Q, r: R, e: E) returns (trace: seq<Event<Q, R, E>>)
      ensures trace == FromHandler(Config(), q, r, Fault(e))
      decreases 0, |afters| + 1, 1
    {
      trace := FailFromAfter(q, r, 0, e);
    }

    /** Run the handler, in a task of its own if there were middlewares before. */
    method ContinueFromHandler(q: Q, r: R, isBefore: bool) returns (trace: seq<Event<Q, R, E>>)
      ensures trace == FromHandler(Config(), q, r, Fine)
      decreases 0, |afters| + 2, 1
    {
      trace := [CallHandler(q, r)];
      match handler(q, r) {
        case None =>
        case Some((q', r', reply)) =>
          var rest;
          match reply {
            case Fault(e) => rest := FailFromHandler(q', r', e);
            case Fine => rest := ContinueFromAfter(q', r', 0);
          }
          trace := trace + rest;
      }
    }

    method FailFromAfter(q0: Q, r0: R, index: nat, e0: E) returns (trace: seq<Event<Q, R, E>>)
      requires index <= |afters|
      ensures trace == FromAfter(Config(), index, q0, r0, Fault(e0))
      decreases 0, |afters| - index, 1
    {
      var q, r, e := q0, r0, e0;
      trace := [];
      if index == |afters| {
        trace := Reply(q, r);
        return;
      }
      var i := index;
      while i < |afters|
        invariant index <= i <= |afters|
        invariant trace + FromAfter(Config(), i, q, r, Fault(e)) == FromAfter(Config(), index, q0, r0, Fault(e0))
      {
        var (q', r', st) := afters[i].catch(q, r, e);
        Unfold(trace, CatchAfter(i, q, r, e), FromAfter(Config(), i + 1, q', r', st));
        trace := trace + [CatchAfter(i, q, r, e)];
        if st.Fine? {
          var rest := ContinueFromAfter(q', r', i + 1);
          trace := trace + rest;
          return;
        }
        q, r, e, i := q', r', st.error, i + 1;
      }
      var rest := Reply(q, r);
      trace := trace + rest;
    }

    method ContinueFromAfter(q0: Q, r0: R, index: nat) returns (trace: seq<Event<Q, R, E>>)
      ensures trace == FromAfter(Config(), index, q0, r0, Fine)
      decreases 0, |afters| - index, 1
    {
      var q, r := q0, r0;
      trace := [];
      if index >= |afters| {
        trace := Reply(q, r);
        return;
      }
      var i := index;
      while i < |afters|
        invariant index <= i <= |afters|
        invariant trace + FromAfter(Config(), i, q, r, Fine) == FromAfter(Config(), index, q0, r0, Fine)
      {
        var (q', r', st) := afters[i].after(q, r);
        Unfold(trace, CallAfter(i, q, r), FromAfter(Config(), i + 1, q', r', st));
        trace := trace + [CallAfter(i, q, r)];
        if st.Fault? {
          var rest := FailFromAfter(q', r', i + 1, st.error);
          trace := trace + rest;
          return;
        }
        q, r, i := q', r', i + 1;
      }
      var rest := Reply(q, r);
      trace := trace + rest;
    }

    /** The chain as a handler: start at the first middleware; it never answers by itself. */
    method Handle(q: Q, r: R) returns (answer: Option<(Q, R, Status<E>)>, trace: seq<Event<Q, R, E>>)
      ensures answer == None && trace == FromBefore(Config(), 0, q, r, Fine)
    {
      trace := ContinueFromBefore(q, r, 0);
      answer := None;
    }
  }

  lemma Unfold<T>(a: seq<T>, x: T, b: seq<T>)
    ensures a + ([x] + b) == a + [x] + b
  {
  }

  // ---- The plain fold ----

  /** The state after the first k middlewares before. */
  function BeforeState<Q, R, E>(c: Links<Q, R, E>, k: nat, q: Q, st: Status<E>): (Q, Status<E>)
    requires k <= |c.befores|
  {
    if k == 0 then (q, st)
    else
      var (q', st') := BeforeState(c, k - 1, q, st);
      StepBefore(c.befores[k - 1], q', st')
  }

  /** The state after the first k middlewares after. */
  function AfterState<Q, R, E>(c: Links<Q, R, E>, k: nat, q: Q, r: R, st: Status<E>): (Q, R, Status<E>)
    requires k <= |c.afters|
  {
    if k == 0 then (q, r, st)
    else
      var (q', r', st') := AfterState(c, k - 1, q, r, st);
      StepAfter(c.afters[k - 1], q', r', st')
  }

  /** What the fold calls at middleware k: the normal form if all is fine there, else the catch. */
  function BeforeCallAt<Q, R, E>(c: Links<Q, R, E>, k: nat, q: Q, st: Status<E>): Event<Q, R, E>
    requires k <= |c.befores|
  {
    var (q', st') := BeforeState(c, k, q, st);
    BeforeEvent(k, q', st')
  }

  function AfterCallAt<Q, R, E>(c: Links<Q, R, E>, k: nat, q: Q, r: R, st: Status<E>): Event<Q, R, E>
    requires k <= |c.afters|
  {
    var (q', r', st') := AfterState(c, k, q, r, st);
    AfterEvent(k, q', r', st')
  }

  /** The calls of the fold from middleware i on. */
  function BeforeCalls<Q, R, E>(c: Links<Q, R, E>, i: nat, q: Q, st: Status<E>): (calls: seq<Event<Q, R, E>>)
    requires i <= |c.befores|
    ensures |calls| == |c.befores| - i
    ensures forall k :: 0 <= k < |calls| ==> calls[k] == BeforeCallAt(c, i + k, q, st)
    decreases |c.befores| - i
  {
    if i == |c.befores| then [] else [BeforeCallAt(c, i, q, st)] + BeforeCalls(c, i + 1, q, st)
  }

  function AfterCalls<Q, R, E>(c: Links<Q, R, E>, i: nat, q: Q, r: R, st: Status<E>): (calls: seq<Event<Q, R, E>>)
    requires i <= |c.afters|
    ensures |calls| == |c.afters| - i
    ensures forall k :: 0 <= k < |calls| ==> calls[k] == AfterCallAt(c, i + k, q, r, st)
    decreases |c.afters| - i
  {
    if i == |c.afters| then [] else [AfterCallAt(c, i, q, r, st)] + AfterCalls(c, i + 1, q, r, st)
  }

  lemma {:induction false} FromAfterIsFold<Q, R, E>(c: Links<Q, R, E>, i: nat, q: Q, r: R, st: Status<E>)
    requires i <= |c.afters|
    ensures var (q', r', st') := AfterState(c, i, q, r, st);
            var (qm, rm, _) := AfterState(c, |c.afters|, q, r, st);
            FromAfter(c, i, q', r', st') == AfterCalls(c, i, q, r, st) + [SendReply(qm, rm)]
    decreases |c.afters| - i
  {
    if i < |c.afters| { FromAfterIsFold(c, i + 1, q, r, st); }
  }

  lemma {:induction false} FromBeforeIsFold<Q, R, E>(c: Links<Q, R, E>, i: nat, q: Q, r: R, st: Status<E>)
    requires i <= |c.befores|
    ensures var (q', st') := BeforeState(c, i, q, st);
            var (qn, stn) := BeforeState(c, |c.befores|, q, st);
            FromBefore(c, i, q', r, st') == BeforeCalls(c, i, q, st) + FromHandler(c, qn, r, stn)
    decreases |c.befores| - i
  {
    var (qn, stn) := BeforeState(c, |c.befores|, q, st);
    if i < |c.befores| {
      FromBeforeIsFold(c, i + 1, q, r, st);
      Prepend(BeforeCallAt(c, i, q, st), BeforeCalls(c, i + 1, q, st), FromHandler(c, qn, r, stn));
    } else {
      assert [] + FromHandler(c, qn, r, stn) == FromHandler(c, qn, r, stn);
    }
  }

  lemma Prepend<T>(x: T, a: seq<T>, b: seq<T>)
    ensures [x] + (a + b) == [x] + a + b
  {
  }

  /** A middleware's own event, by place. */
  predicate IsBefore<Q, R, E>(ev: Event<Q, R, E>, k: nat) {
    (ev.CallBefore? || ev.CatchBefore?) && ev.index == k
  }

  predicate IsAfter<Q, R, E>(ev: Event<Q, R, E>, k: nat) {
    (ev.CallAfter? || ev.CatchAfter?) && ev.index == k
  }

  /** The stage after the handler: all middlewares in order, then the reply with their final state. */
  function AfterStage<Q, R, E>(c: Links<Q, R, E>, q: Q, r: R, st: Status<E>): (trace: seq<Event<Q, R, E>>)
    ensures |trace| == |c.afters| + 1
    ensures forall k :: 0 <= k < |c.afters| ==> IsAfter(trace[k], k)
  {
    var (qm, rm, _) := AfterState(c, |c.afters|, q, r, st);
    AfterCalls(c, 0, q, r, st) + [SendReply(qm, rm)]
  }

  /** The handler's stage: nothing but an error passed on, or the handler and what follows it. */
  function HandlerStage<Q, R, E>(c: Links<Q, R, E>, q: Q, r: R, st: Status<E>): seq<Event<Q, R, E>> {
    if st.Fault? then AfterStage(c, q, r, st)
    else
      match c.handler(q, r)
      case None => [CallHandler(q, r)]
      case Some((q', r', st')) => [CallHandler(q, r)] + AfterStage(c, q', r', st')
  }

  /**
    The whole request is the plain fold: every middleware before, once and in order; the
    handler exactly if they end fine; then, unless the handler goes on by itself, every
    middleware after, once and in order, and the reply.
   */
  lemma ChainIsFold<Q, R, E>(c: Links<Q, R, E>, q: Q, r: R)
    ensures var (qn, st) := BeforeState(c, |c.befores|, q, Fine);
            FromBefore(c, 0, q, r, Fine) == BeforeCalls(c, 0, q, Fine) + HandlerStage(c, qn, r, st)
    ensures forall k :: 0 <= k < |c.befores| ==> IsBefore<Q, R, E>(BeforeCalls(c, 0, q, Fine)[k], k)
  {
    FromBeforeIsFold(c, 0, q, r, Fine);
    var (qn, st) := BeforeState(c, |c.befores|, q, Fine);
    if st.Fault? {
      FromAfterIsFold(c, 0, qn, r, st);
    } else if c.handler(qn, r).Some? {
      var (q', r', st') := c.handler(qn, r).value;
      FromAfterIsFold(c, 0, q', r', st');
    }
  }

  /** There is one reply and it comes last, or there is none. */
  ghost predicate EndsWithReply<Q, R, E>(trace: seq<Event<Q, R, E>>, replied: bool) {
    trace != [] && forall k :: 0 <= k < |trace| ==> (trace[k].SendReply? <==> replied && k == |trace| - 1)
  }

  lemma AfterEndsWithReply<Q, R, E>(c: Links<Q, R, E>, q: Q, r: R, st: Status<E>)
    ensures EndsWithReply(FromAfter(c, 0, q, r, st), true)
  {
    FromAfterIsFold(c, 0, q, r, st);
    var trace := AfterStage(c, q, r, st);
    forall k | 0 <= k < |c.afters| ensures !trace[k].SendReply? { assert IsAfter(trace[k], k); }
  }

  lemma PrefixKeepsEnd<Q, R, E>(front: seq<Event<Q, R, E>>, tail: seq<Event<Q, R, E>>, replied: bool)
    requires EndsWithReply(tail, replied) && forall k :: 0 <= k < |front| ==> !front[k].SendReply?
    ensures EndsWithReply(front + tail, replied)
  {
  }

  predicate Silent<Q, R, E>(c: Links<Q, R, E>, q: Q, r: R, st: Status<E>) { st.Fine? && c.handler(q, r).None? }

  lemma HandlerEndsWithReply<Q, R, E>(c: Links<Q, R, E>, q: Q, r: R, st: Status<E>)
    ensures EndsWithReply(FromHandler(c, q, r, st), !Silent(c, q, r, st))
  {
    if st.Fault? {
      AfterEndsWithReply(c, q, r, st);
    } else if c.handler(q, r).Some? {
      var (q', r', st') := c.handler(q, r).value;
      AfterEndsWithReply(c, q', r', st');
      PrefixKeepsEnd([CallHandler(q, r)], FromAfter(c, 0, q', r', st'), true);
    }
  }

  /** One reply, at the end, unless the handler was reached and goes on by itself. */
  lemma RepliesOnce<Q, R, E>(c: Links<Q, R, E>, q: Q, r: R)
    ensures var (qn, st) := BeforeState(c, |c.befores|, q, Fine);
            EndsWithReply(FromBefore(c, 0, q, r, Fine), !Silent(c, qn, r, st))
  {
    FromBeforeIsFold(c, 0, q, r, Fine);
    var (qn, st) := BeforeState(c, |c.befores|, q, Fine);
    HandlerEndsWithReply(c, qn, r, st);
    var calls := BeforeCalls(c, 0, q, Fine);
    forall k | 0 <= k < |calls| ensures !calls[k].SendReply? { assert calls[k] == BeforeCallAt(c, k, q, Fine); }
    PrefixKeepsEnd(calls, FromHandler(c, qn, r, st), !Silent(c, qn, r, st));
  }

  // ---- The law of the trace, from the middlewares alone ----

  /** What is due in the stage after the handler, at middleware i. */
  predicate DueAfter<Q(==), R(==), E(==)>(c: Links<Q, R, E>, i: nat, q: Q, r: R, st: Status<E>, ev: Event<Q, R, E>) {
    if i >= |c.afters| then ev == SendReply(q, r)
    else
      match st
      case Fine => ev == CallAfter(i, q, r)
      case Fault(e) => ev == CatchAfter(i, q, r, e)
  }

  /** What is due in the stage before the handler, at middleware i: past the last one the handler, or the stage after it. */
  predicate DueBefore<Q(==), R(==), E(==)>(c: Links<Q, R, E>, i: nat, q: Q, r: R, st: Status<E>, ev: Event<Q, R, E>) {
    match st
    case Fine => ev == if i < |c.befores| then CallBefore(i, q) else CallHandler(q, r)
    case Fault(e) => if i < |c.befores| then ev == CatchBefore(i, q, e) else DueAfter(c, 0, q, r, st, ev)
  }

  /** `next` follows `ev`: what a middleware or the handler returns decides it. The response `r` comes in with the request. */
  predicate Succeeds<Q(==), R(==), E(==)>(c: Links<Q, R, E>, r: R, ev: Event<Q, R, E>, next: Event<Q, R, E>) {
    match ev
    case CallBefore(i, q) =>
      i < |c.befores| && var (q', st) := c.befores[i].before(q); DueBefore(c, i + 1, q', r, st, next)
    case CatchBefore(i, q, e) =>
      i < |c.befores| && var (q', st) := c.befores[i].catch(q, e); DueBefore(c, i + 1, q', r, st, next)
    case CallHandler(q, r1) =>
      (match c.handler(q, r1)
       case None => false
       case Some((q', r', st)) => DueAfter(c, 0, q', r', st, next))
    case CallAfter(i, q, r1) =>
      i < |c.afters| && var (q', r', st) := c.afters[i].after(q, r1); DueAfter(c, i + 1, q', r', st, next)
    case CatchAfter(i, q, r1, e) =>
      i < |c.afters| && var (q', r', st) := c.afters[i].catch(q, r1, e); DueAfter(c, i + 1, q', r', st, next)
    case SendReply(_, _) => false
  }

  /** A reply ends the request, and so does a handler that goes on by itself. */
  predicate Ends<Q, R, E>(c: Links<Q, R, E>, ev: Event<Q, R, E>) {
    ev.SendReply? || (ev.CallHandler? && c.handler(ev.q, ev.r).None?)
  }

  ghost predicate Lawful<Q, R, E>(c: Links<Q, R, E>, r: R, trace: seq<Event<Q, R, E>>) {
    && trace != []
    && (forall k :: 0 <= k < |trace| - 1 ==> Succeeds(c, r, trace[k], trace[k + 1]))
    && Ends(c, trace[|trace| - 1])
  }

  lemma LawfulCons<Q, R, E>(c: Links<Q, R, E>, r: R, ev: Event<Q, R, E>, trace: seq<Event<Q, R, E>>)
    requires Lawful(c, r, trace) && Succeeds(c, r, ev, trace[0])
    ensures Lawful(c, r, [ev] + trace)
  {
    var all := [ev] + trace;
    forall k | 0 <= k < |all| - 1 ensures Succeeds(c, r, all[k], all[k + 1]) {
      if k > 0 { assert all[k] == trace[k - 1] && all[k + 1] == trace[k]; }
    }
  }

  lemma {:induction false} AfterLawful<Q, R, E>(c: Links<Q, R, E>, r0: R, i: nat, q: Q, r: R, st: Status<E>)
    ensures Lawful(c, r0, FromAfter(c, i, q, r, st)) && DueAfter(c, i, q, r, st, FromAfter(c, i, q, r, st)[0])
    decreases |c.afters| - i
  {
    if i < |c.afters| {
      var (q', r', st') := StepAfter(c.afters[i], q, r, st);
      AfterLawful(c, r0, i + 1, q', r', st');
      LawfulCons(c, r0, AfterEvent(i, q, r, st), FromAfter(c, i + 1, q', r', st'));
    }
  }

  lemma HandlerLawful<Q, R, E>(c: Links<Q, R, E>, q: Q, r: R, st: Status<E>)
    ensures var trace := FromHandler(c, q, r, st);
            Lawful(c, r, trace) && DueBefore(c, |c.befores|, q, r, st, trace[0])
  {
    if st.Fault? {
      AfterLawful(c, r, 0, q, r, st);
    } else if c.handler(q, r).Some? {
      var (q', r', st') := c.handler(q, r).value;
      AfterLawful(c, r, 0, q', r', st');
      LawfulCons(c, r, CallHandler(q, r), FromAfter(c, 0, q', r', st'));
    }
  }

  lemma {:induction false} BeforeLawful<Q, R, E>(c: Links<Q, R, E>, i: nat, q: Q, r: R, st: Status<E>)
    requires i <= |c.befores|
    ensures var trace := FromBefore(c, i, q, r, st);
            Lawful(c, r, trace) && DueBefore(c, i, q, r, st, trace[0])
    decreases |c.befores| - i
  {
    if i == |c.befores| {
      HandlerLawful(c, q, r, st);
    } else {
      var (q', st') := StepBefore(c.befores[i], q, st);
      BeforeLawful(c, i + 1, q', r, st');
      LawfulCons(c, r, BeforeEvent(i, q, st), FromBefore(c, i + 1, q', r, st'));
    }
  }

  /**
    Every request's trace obeys the law: it starts with what is due at first, each event is
    followed by what its own result makes due, and it stops only at a reply or a handler
    that goes on by itself.
   */
  lemma TraceLaw<Q, R, E>(c: Links<Q, R, E>, q: Q, r: R)
    ensures var trace := FromBefore(c, 0, q, r, Fine);
            Lawful(c, r, trace) && DueBefore(c, 0, q, r, Fine, trace[0])
  {
    BeforeLawful(c, 0, q, r, Fine);
  }

  /** The law leaves no choice: there is one lawful trace for each request. */
  lemma {:induction false} LawDetermines<Q, R, E>(c: Links<Q, R, E>, r: R, a: seq<Event<Q, R, E>>, b: seq<Event<Q, R, E>>)
    requires Lawful(c, r, a) && Lawful(c, r, b) && a[0] == b[0]
    ensures a == b
    decreases |a|
  {
    StopsAtOnce(c, r, a);
    StopsAtOnce(c, r, b);
    if |a| > 1 {
      SameNext(c, r, a[0], a[1], b[1]);
      LawfulTail(c, r, a);
      LawfulTail(c, r, b);
      LawDetermines(c, r, a[1..], b[1..]);
      assert a == [a[0]] + a[1..] && b == [b[0]] + b[1..];
    }
  }

  lemma StopsAtOnce<Q, R, E>(c: Links<Q, R, E>, r: R, trace: seq<Event<Q, R, E>>)
    requires Lawful(c, r, trace)
    ensures |trace| == 1 <==> Ends(c, trace[0])
  {
    if |trace| > 1 { assert Succeeds(c, r, trace[0], trace[1]); }
  }

  lemma SameNext<Q, R, E>(c: Links<Q, R, E>, r: R, ev: Event<Q, R, E>, x: Event<Q, R, E>, y: Event<Q, R, E>)
    requires Succeeds(c, r, ev, x) && Succeeds(c, r, ev, y)
    ensures x == y
  {
  }

  lemma LawfulTail<Q, R, E>(c: Links<Q, R, E>, r: R, trace: seq<Event<Q, R, E>>)
    requires Lawful(c, r, trace) && |trace| > 1
    ensures Lawful(c, r, trace[1..])
  {
    var tail := trace[1..];
    forall k | 0 <= k < |tail| - 1 ensures Succeeds(c, r, tail[k], tail[k + 1]) {
      assert Succeeds(c, r, trace[k + 1], trace[k + 2]);
    }
  }
}
