/** What a fetch cycle promises, proved about the traces of module Cycle:
    the dispatch log, which messages get delete requests and how many,
    what the server keeps for the next cycle, the teardown, the live-session
    mode, and the effect of the narrow interface check. */
module CycleProperties {
  import opened Options
  import opened Cycle

  /** Strictly increasing numbers: every message appears at most once. */
  predicate Increasing(s: seq<nat>)
  {
    forall i, j :: 0 <= i < j < |s| ==> s[i] < s[j]
  }

  // ---------------------------------------------------------------------
  // The two views of a trace distribute over concatenation

  lemma {:induction false} InvocationsAppend(a: seq<Event>, b: seq<Event>)
    ensures Invocations(a + b) == Invocations(a) + Invocations(b)
    decreases |b|
  {
    if b != [] {
      assert (a + b)[..|a + b| - 1] == a + b[..|b| - 1];
      assert (a + b)[|a + b| - 1] == b[|b| - 1];
      InvocationsAppend(a, b[..|b| - 1]);
    } else {
      assert a + b == a;
    }
  }

  lemma {:induction false} DeletedNumbersAppend(a: seq<Event>, b: seq<Event>)
    ensures DeletedNumbers(a + b) == DeletedNumbers(a) + DeletedNumbers(b)
    decreases |b|
  {
    if b != [] {
      assert (a + b)[..|a + b| - 1] == a + b[..|b| - 1];
      assert (a + b)[|a + b| - 1] == b[|b| - 1];
      DeletedNumbersAppend(a, b[..|b| - 1]);
    } else {
      assert a + b == a;
    }
  }

  lemma ViewsOfOne(e: Event)
    ensures Invocations([e]) == (if e.Invoke? then [e] else [])
    ensures DeletedNumbers([e]) == (if e.MarkDeleted? then [e.num] else [])
  {
    assert [e][..0] == [];
  }

  /** A run of calls is all invocations and holds no delete request. */
  lemma {:induction false} ViewsOfCalls(names: seq<MethodName>, p: Payload)
    ensures Invocations(Calls(names, p)) == Calls(names, p)
    ensures DeletedNumbers(Calls(names, p)) == []
    decreases |names|
  {
    if names != [] {
      var front := names[..|names| - 1];
      assert Calls(names, p) == Calls(front, p) + [Invoke(names[|names| - 1], p)];
      ViewsOfCalls(front, p);
      InvocationsAppend(Calls(front, p), [Invoke(names[|names| - 1], p)]);
      DeletedNumbersAppend(Calls(front, p), [Invoke(names[|names| - 1], p)]);
      ViewsOfOne(Invoke(names[|names| - 1], p));
    }
  }

  // ---------------------------------------------------------------------
  // The deletion decision for one message

  /** The two guarded statements issue a request exactly when ShouldDelete
      holds. On prepared options they issue at most one, and the decision
      is the documented policy: the block alone when one is given. On
      options that were not prepared, a matching block with `:keep` unset
      issues two. */
  lemma DeleteRequestsDecision(proto: Protocol, o: FetchOptions, num: nat, m: Message)
    ensures var d := DeleteRequests(proto, o, num, m);
      && (|d| > 0 <==> ShouldDelete(o, m))
      && (forall e :: e in d ==> e == MarkDeleted(proto, num))
      && (IsPrepared(o) ==> |d| <= 1 && (ShouldDelete(o, m) <==> PolicyDeletes(o, m)))
      && (o.deleteIf.Some? && o.deleteIf.value(m) && !Truthy(o.keep) ==> |d| == 2)
  {
  }

  lemma ViewsOfDeleteRequests(proto: Protocol, o: FetchOptions, num: nat, m: Message)
    ensures Invocations(DeleteRequests(proto, o, num, m)) == []
    ensures var ds := DeletedNumbers(DeleteRequests(proto, o, num, m));
      && (forall x :: x in ds <==> x == num && ShouldDelete(o, m))
      && (IsPrepared(o) ==> |ds| <= 1)
  {
    var matched, dropped := o.deleteIf.Some? && o.deleteIf.value(m), !Truthy(o.keep);
    assert ShouldDelete(o, m) == (matched || dropped);
    assert IsPrepared(o) ==> !(matched && dropped);
    GuardedRequests(MarkDeleted(proto, num), matched, dropped);
  }

  /** Two guarded copies of one delete request, seen through the views. */
  lemma GuardedRequests(e: Event, first: bool, second: bool)
    requires e.MarkDeleted?
    ensures var d := (if first then [e] else []) + (if second then [e] else []);
      && Invocations(d) == []
      && (forall x :: x in DeletedNumbers(d) <==> x == e.num && (first || second))
      && |DeletedNumbers(d)| == (if first then 1 else 0) + (if second then 1 else 0)
  {
    ViewsOfOne(e);
    InvocationsAppend(if first then [e] else [], if second then [e] else []);
    DeletedNumbersAppend(if first then [e] else [], if second then [e] else []);
  }

  /** One loop iteration with every method present: the e-mail goes to all
      methods in order, then its delete requests follow. */
  lemma HandleMessageViews(proto: Protocol, o: FetchOptions, c: Consumer, names: seq<MethodName>,
                           num: nat, m: Message)
    requires AllSupported(c, names)
    ensures var h := HandleMessage(proto, o, c, names, num, m);
      && h.failure.None?
      && h.events == [Retrieve(proto, num)] + Calls(names, Email(m)) + DeleteRequests(proto, o, num, m)
      && Invocations(h.events) == Calls(names, Email(m))
      && (forall x :: x in DeletedNumbers(h.events) <==> x == num && ShouldDelete(o, m))
      && (IsPrepared(o) ==> |DeletedNumbers(h.events)| <= 1)
  {
    var r := [Retrieve(proto, num)];
    var calls := Calls(names, Email(m));
    var dels := DeleteRequests(proto, o, num, m);
    assert HandleMessage(proto, o, c, names, num, m) == Step(r + calls + dels, None);
    ViewsOfOne(Retrieve(proto, num));
    ViewsOfCalls(names, Email(m));
    ViewsOfDeleteRequests(proto, o, num, m);
    ViewsOfThree(r, calls, dels);
  }

  lemma ViewsOfThree(a: seq<Event>, b: seq<Event>, c: seq<Event>)
    ensures Invocations(a + b + c) == Invocations(a) + Invocations(b) + Invocations(c)
    ensures DeletedNumbers(a + b + c) == DeletedNumbers(a) + DeletedNumbers(b) + DeletedNumbers(c)
  {
    InvocationsAppend(a, b);
    InvocationsAppend(a + b, c);
    DeletedNumbersAppend(a, b);
    DeletedNumbersAppend(a + b, c);
  }

  // ---------------------------------------------------------------------
  // The message loop

  lemma IncreasingAppend(a: seq<nat>, b: seq<nat>)
    requires Increasing(a) && Increasing(b)
    requires forall x, y :: x in a && y in b ==> x < y
    ensures Increasing(a + b)
  {
    forall i, j | 0 <= i < j < |a + b| ensures (a + b)[i] < (a + b)[j] {
      if i < |a| && |a| <= j {
        assert a[i] in a && b[j - |a|] in b;
      }
    }
  }

  /** With every method present, the loop never raises, and each iteration
      appends its message's events. */
  lemma {:induction false} RunCompletes(proto: Protocol, o: FetchOptions, c: Consumer, names: seq<MethodName>,
                                        msgs: seq<Message>, n: nat)
    requires n <= |msgs| && AllSupported(c, names)
    ensures Run(proto, o, c, names, msgs, n).failure.None?
    ensures n > 0 ==> (Run(proto, o, c, names, msgs, n).events ==
      Run(proto, o, c, names, msgs, n - 1).events + HandleMessage(proto, o, c, names, n, msgs[n - 1]).events)
    decreases n
  {
    if n > 0 {
      RunCompletes(proto, o, c, names, msgs, n - 1);
    }
  }

  /** The numbers of a loop grow by one message's requests: membership
      follows the policy, and at most one request per message keeps the
      numbers increasing. */
  lemma NumbersStep(o: FetchOptions, msgs: seq<Message>, a: seq<nat>, b: seq<nat>, n: nat)
    requires 0 < n <= |msgs|
    requires forall x :: x in a <==> 1 <= x <= n - 1 && ShouldDelete(o, msgs[x - 1])
    requires forall x :: x in b <==> x == n && ShouldDelete(o, msgs[n - 1])
    ensures forall x :: x in a + b <==> 1 <= x <= n && ShouldDelete(o, msgs[x - 1])
    ensures Increasing(a) && |b| <= 1 ==> Increasing(a + b)
  {
    if Increasing(a) && |b| <= 1 {
      IncreasingAppend(a, b);
    }
  }

  /** The views of a loop after one more completed iteration. */
  lemma ViewsStep(o: FetchOptions, names: seq<MethodName>, msgs: seq<Message>,
                  prev: seq<Event>, h: seq<Event>, n: nat)
    requires 0 < n <= |msgs|
    requires Invocations(prev) == DispatchLog(names, msgs[..n - 1])
    requires forall x :: x in DeletedNumbers(prev) <==> 1 <= x <= n - 1 && ShouldDelete(o, msgs[x - 1])
    requires IsPrepared(o) ==> Increasing(DeletedNumbers(prev))
    requires Invocations(h) == Calls(names, Email(msgs[n - 1]))
    requires forall x :: x in DeletedNumbers(h) <==> x == n && ShouldDelete(o, msgs[n - 1])
    requires IsPrepared(o) ==> |DeletedNumbers(h)| <= 1
    ensures Invocations(prev + h) == DispatchLog(names, msgs[..n])
    ensures forall x :: x in DeletedNumbers(prev + h) <==> 1 <= x <= n && ShouldDelete(o, msgs[x - 1])
    ensures IsPrepared(o) ==> Increasing(DeletedNumbers(prev + h))
  {
    InvocationsAppend(prev, h);
    assert msgs[..n][..n - 1] == msgs[..n - 1];
    DeletedNumbersAppend(prev, h);
    NumbersStep(o, msgs, DeletedNumbers(prev), DeletedNumbers(h), n);
  }

  /** Requests go out message by message, each after that message's calls:
      at every delete request for message `i`, the calls made so far are
      exactly those for messages 1 to `i`. */
  predicate DeletesFollowCalls(events: seq<Event>, names: seq<MethodName>, msgs: seq<Message>)
  {
    forall p :: 0 <= p < |events| && events[p].MarkDeleted? ==>
      1 <= events[p].num <= |msgs| && Invocations(events[..p]) == DispatchLog(names, msgs[..events[p].num])
  }

  lemma {:induction false} CallFree(s: seq<Event>)
    requires forall e :: e in s ==> !e.Invoke?
    ensures Invocations(s) == []
    decreases |s|
  {
    if s != [] {
      assert forall e :: e in s[..|s| - 1] ==> e in s;
      CallFree(s[..|s| - 1]);
    }
  }

  /** A position inside a call-free tail sees exactly the calls before the tail. */
  lemma CallFreeTail(a: seq<Event>, b: seq<Event>, t: nat)
    requires t < |b|
    requires forall e :: e in b ==> !e.Invoke?
    ensures (a + b)[|a| + t] == b[t]
    ensures Invocations((a + b)[..|a| + t]) == Invocations(a)
  {
    assert (a + b)[..|a| + t] == a + b[..t];
    assert forall e :: e in b[..t] ==> e in b;
    CallFree(b[..t]);
    InvocationsAppend(a, b[..t]);
  }

  /** Appending call-free, delete-free events and then delete requests for
      message `n` keeps the order, once the calls so far are those for
      messages 1 to `n`. */
  lemma OrderAppend(front: seq<Event>, mid: seq<Event>, dels: seq<Event>,
                    names: seq<MethodName>, msgs: seq<Message>, n: nat)
    requires 0 < n <= |msgs|
    requires DeletesFollowCalls(front, names, msgs)
    requires forall i :: 0 <= i < |mid| ==> !mid[i].MarkDeleted?
    requires Invocations(front + mid) == DispatchLog(names, msgs[..n])
    requires forall e :: e in dels ==> !e.Invoke? && e.MarkDeleted? && e.num == n
    ensures DeletesFollowCalls(front + mid + dels, names, msgs)
  {
    var head := front + mid;
    var es := head + dels;
    forall i | |front| <= i < |head|
      ensures !es[i].MarkDeleted?
    {
      assert es[i] == mid[i - |front|];
    }
    forall p | 0 <= p < |es| && es[p].MarkDeleted?
      ensures 1 <= es[p].num <= |msgs| && Invocations(es[..p]) == DispatchLog(names, msgs[..es[p].num])
    {
      if p < |front| {
        assert es[p] == front[p];
        assert es[..p] == front[..p];
      } else {
        CallFreeTail(head, dels, p - |head|);
      }
    }
  }

  lemma RetrieveThenCalls(proto: Protocol, n: nat, names: seq<MethodName>, p: Payload)
    ensures Invocations([Retrieve(proto, n)] + Calls(names, p)) == Calls(names, p)
  {
    ViewsOfOne(Retrieve(proto, n));
    ViewsOfCalls(names, p);
    InvocationsAppend([Retrieve(proto, n)], Calls(names, p));
  }

  lemma DispatchLogStep(names: seq<MethodName>, msgs: seq<Message>, n: nat)
    requires 0 < n <= |msgs|
    ensures DispatchLog(names, msgs[..n]) == DispatchLog(names, msgs[..n - 1]) + Calls(names, Email(msgs[n - 1]))
  {
    assert msgs[..n][..n - 1] == msgs[..n - 1];
  }

  /** The calls of a loop after one more iteration, up to its delete requests. */
  lemma LogStep(proto: Protocol, names: seq<MethodName>, msgs: seq<Message>, prev: seq<Event>, n: nat)
    requires 0 < n <= |msgs|
    requires Invocations(prev) == DispatchLog(names, msgs[..n - 1])
    ensures Invocations(prev + ([Retrieve(proto, n)] + Calls(names, Email(msgs[n - 1]))))
      == DispatchLog(names, msgs[..n])
  {
    RetrieveThenCalls(proto, n, names, Email(msgs[n - 1]));
    InvocationsAppend(prev, [Retrieve(proto, n)] + Calls(names, Email(msgs[n - 1])));
    DispatchLogStep(names, msgs, n);
  }

  /** The order of a loop after one more iteration: retrieval, the calls
      for message `n`, then its delete requests. */
  lemma OrderStep(proto: Protocol, names: seq<MethodName>, msgs: seq<Message>,
                  prev: seq<Event>, dels: seq<Event>, n: nat)
    requires 0 < n <= |msgs|
    requires DeletesFollowCalls(prev, names, msgs)
    requires Invocations(prev) == DispatchLog(names, msgs[..n - 1])
    requires forall e :: e in dels ==> e == MarkDeleted(proto, n)
    ensures DeletesFollowCalls(prev + ([Retrieve(proto, n)] + Calls(names, Email(msgs[n - 1])) + dels), names, msgs)
  {
    var mid := [Retrieve(proto, n)] + Calls(names, Email(msgs[n - 1]));
    LogStep(proto, names, msgs, prev, n);
    OrderAppend(prev, mid, dels, names, msgs, n);
    Regroup3(prev, mid, dels);
  }

  /** A loop over the first `n` messages with every method present never
      raises; it has dispatched every method, in list order, for each
      message in enumeration order; it has issued a delete request for
      exactly the messages the policy deletes; and on prepared options no
      message gets two. */
  lemma {:induction false} RunViews(proto: Protocol, o: FetchOptions, c: Consumer, names: seq<MethodName>,
                                    msgs: seq<Message>, n: nat)
    requires n <= |msgs| && AllSupported(c, names)
    ensures var r := Run(proto, o, c, names, msgs, n);
      && r.failure.None?
      && Invocations(r.events) == DispatchLog(names, msgs[..n])
      && (forall x :: x in DeletedNumbers(r.events) <==> 1 <= x <= n && ShouldDelete(o, msgs[x - 1]))
      && (IsPrepared(o) ==> Increasing(DeletedNumbers(r.events)))
    decreases n
  {
    if n > 0 {
      var prev := Run(proto, o, c, names, msgs, n - 1).events;
      var h := HandleMessage(proto, o, c, names, n, msgs[n - 1]).events;
      RunViews(proto, o, c, names, msgs, n - 1);
      HandleMessageViews(proto, o, c, names, n, msgs[n - 1]);
      RunStep(proto, o, c, names, msgs, n);
      ViewsStep(o, names, msgs, prev, h, n);
    }
  }

  /** The loop keeps each message's calls ahead of its delete requests:
      message `i` is requested for deletion only after every method has been
      called for messages 1 to `i`, and before any call for a later message. */
  lemma {:induction false} RunOrder(proto: Protocol, o: FetchOptions, c: Consumer, names: seq<MethodName>,
                                    msgs: seq<Message>, n: nat)
    requires n <= |msgs| && AllSupported(c, names)
    ensures DeletesFollowCalls(Run(proto, o, c, names, msgs, n).events, names, msgs)
    decreases n
  {
    if n > 0 {
      var prev := Run(proto, o, c, names, msgs, n - 1).events;
      RunOrder(proto, o, c, names, msgs, n - 1);
      RunViews(proto, o, c, names, msgs, n - 1);
      HandleMessageViews(proto, o, c, names, n, msgs[n - 1]);
      RunStep(proto, o, c, names, msgs, n);
      DeleteRequestsDecision(proto, o, n, msgs[n - 1]);
      OrderStep(proto, names, msgs, prev, DeleteRequests(proto, o, n, msgs[n - 1]), n);
    }
  }

  /** One more iteration of a loop that has not raised. */
  lemma RunStep(proto: Protocol, o: FetchOptions, c: Consumer, names: seq<MethodName>,
                msgs: seq<Message>, n: nat)
    requires 0 < n <= |msgs| && Run(proto, o, c, names, msgs, n - 1).failure.None?
    ensures var h := HandleMessage(proto, o, c, names, n, msgs[n - 1]);
      Run(proto, o, c, names, msgs, n) == Step(Run(proto, o, c, names, msgs, n - 1).events + h.events, h.failure)
  {
  }

  /** Once a `send` has raised, later iterations never run. */
  lemma {:induction false} RunFailureSticks(proto: Protocol, o: FetchOptions, c: Consumer, names: seq<MethodName>,
                                            msgs: seq<Message>, k: nat, n: nat)
    requires k <= n <= |msgs|
    requires Run(proto, o, c, names, msgs, k).failure.Some?
    ensures Run(proto, o, c, names, msgs, n) == Run(proto, o, c, names, msgs, k)
    decreases n
  {
    if n > k {
      RunFailureSticks(proto, o, c, names, msgs, k, n - 1);
    }
  }

  /** A method the class lacks raises on the first message, after the calls
      that precede it in the list and before any delete request. */
  lemma {:induction false} RunStopsAtFirstMessage(proto: Protocol, o: FetchOptions, c: Consumer,
                                                  names: seq<MethodName>, msgs: seq<Message>)
    requires |msgs| > 0 && !AllSupported(c, names)
    ensures var k := FirstUnsupported(c, names);
      var r := Run(proto, o, c, names, msgs, |msgs|);
      && k < |names|
      && r.failure == Some(names[k])
      && r.events == [Retrieve(proto, 1)] + Calls(names[..k], Email(msgs[0]))
  {
    var d := Dispatch(c, names, Email(msgs[0]));
    assert Run(proto, o, c, names, msgs, 1) == Step([] + ([Retrieve(proto, 1)] + d.events), d.failure);
    RunFailureSticks(proto, o, c, names, msgs, 1, |msgs|);
  }

  /** Every event of the loop is a retrieval, a call or a delete request. */
  lemma {:induction false} RunEventKinds(proto: Protocol, o: FetchOptions, c: Consumer, names: seq<MethodName>,
                                         msgs: seq<Message>, n: nat)
    requires n <= |msgs|
    ensures forall e :: e in Run(proto, o, c, names, msgs, n).events ==>
              e.Retrieve? || e.Invoke? || e.MarkDeleted?
    decreases n
  {
    if n > 0 {
      RunEventKinds(proto, o, c, names, msgs, n - 1);
      var d := Dispatch(c, names, Email(msgs[n - 1]));
      assert forall e :: e in d.events ==> e.Invoke?;
      assert forall e :: e in DeleteRequests(proto, o, n, msgs[n - 1]) ==> e.MarkDeleted?;
    }
  }

  // ---------------------------------------------------------------------
  // What the server keeps

  lemma {:induction false} SurvivorsAreKept(o: FetchOptions, msgs: seq<Message>, deleted: seq<nat>, n: nat)
    requires n <= |msgs|
    requires forall x :: 1 <= x <= n ==> (x in deleted <==> ShouldDelete(o, msgs[x - 1]))
    ensures Survivors(msgs[..n], deleted) == Kept(o, msgs[..n])
    decreases n
  {
    if n > 0 {
      assert msgs[..n][..n - 1] == msgs[..n - 1];
      SurvivorsAreKept(o, msgs, deleted, n - 1);
    }
  }

  /** `:keep => true` without a block deletes nothing. */
  lemma {:induction false} KeepingKeepsAll(o: FetchOptions, msgs: seq<Message>)
    requires Truthy(o.keep) && o.deleteIf.None?
    ensures Kept(o, msgs) == msgs
    decreases |msgs|
  {
    if msgs != [] {
      KeepingKeepsAll(o, msgs[..|msgs| - 1]);
    }
  }

  /** With `:keep` unset or false every e-mail is deleted. */
  lemma {:induction false} DefaultDeletesAll(o: FetchOptions, msgs: seq<Message>)
    requires !Truthy(o.keep)
    ensures Kept(o, msgs) == []
    decreases |msgs|
  {
    if msgs != [] {
      DefaultDeletesAll(o, msgs[..|msgs| - 1]);
    }
  }

  /** After preparation a block alone decides: exactly the e-mails it does
      not match stay. */
  lemma {:induction false} BlockAloneDecides(o: FetchOptions, msgs: seq<Message>)
    requires IsPrepared(o) && o.deleteIf.Some?
    ensures Kept(o, msgs) == Unmatched(o.deleteIf.value, msgs)
    decreases |msgs|
  {
    if msgs != [] {
      BlockAloneDecides(o, msgs[..|msgs| - 1]);
    }
  }

  // ---------------------------------------------------------------------
  // Whole cycles

  /** POP, or IMAP in its default mode: the cycles that run the loop. */
  predicate IteratesMailbox(proto: Protocol, o: FetchOptions)
  {
    proto == Pop || o.useImap.None?
  }

  /** Session steps: neither a call on the mailer class nor a delete request. */
  predicate SessionOnly(s: seq<Event>)
  {
    forall e :: e in s ==> !e.Invoke? && !e.MarkDeleted?
  }

  lemma {:induction false} SessionOnlyViews(s: seq<Event>)
    requires SessionOnly(s)
    ensures Invocations(s) == [] && DeletedNumbers(s) == []
    decreases |s|
  {
    if s != [] {
      SessionOnlyViews(s[..|s| - 1]);
    }
  }

  /** Session steps around a run leave its two views unchanged. */
  lemma Framed(head: seq<Event>, mid: seq<Event>, tail: seq<Event>)
    requires SessionOnly(head) && SessionOnly(tail)
    ensures Invocations(head + mid + tail) == Invocations(mid)
    ensures DeletedNumbers(head + mid + tail) == DeletedNumbers(mid)
  {
    SessionOnlyViews(head);
    SessionOnlyViews(tail);
    InvocationsAppend(head, mid);
    InvocationsAppend(head + mid, tail);
    DeletedNumbersAppend(head, mid);
    DeletedNumbersAppend(head + mid, tail);
  }

  /** Session steps around a run keep its order of calls and delete requests. */
  lemma OrderFramed(head: seq<Event>, mid: seq<Event>, tail: seq<Event>,
                    names: seq<MethodName>, msgs: seq<Message>)
    requires SessionOnly(head) && SessionOnly(tail)
    requires DeletesFollowCalls(mid, names, msgs)
    ensures DeletesFollowCalls(head + mid + tail, names, msgs)
  {
    var es := head + mid + tail;
    SessionOnlyViews(head);
    forall i | 0 <= i < |es| && (i < |head| || |head| + |mid| <= i)
      ensures !es[i].MarkDeleted?
    {
      if i < |head| {
        assert es[i] == head[i];
      } else {
        assert es[i] == tail[i - |head| - |mid|];
      }
    }
    forall p | 0 <= p < |es| && es[p].MarkDeleted?
      ensures 1 <= es[p].num <= |msgs| && Invocations(es[..p]) == DispatchLog(names, msgs[..es[p].num])
    {
      var q := p - |head|;
      assert es[p] == mid[q];
      assert es[..p] == head + mid[..q];
      InvocationsAppend(head, mid[..q]);
      assert [] + Invocations(mid[..q]) == Invocations(mid[..q]);
    }
  }

  /** Regrouping a trace made of pieces. */
  lemma Regroup(a: seq<Event>, b: seq<Event>, c: seq<Event>, d: seq<Event>)
    ensures a + b + c + d == a + (b + c + d)
  {
  }

  lemma Regroup3(a: seq<Event>, b: seq<Event>, c: seq<Event>)
    ensures a + b + c == a + (b + c)
  {
  }

  /** The session steps before the loop. */
  function Opening(proto: Protocol, cfg: Config): seq<Event>
  {
    match proto
    case Pop => [Connect(Pop, cfg.server, None, cfg.username)]
    case Imap => [Connect(Imap, cfg.server, cfg.port, cfg.username), Examine("INBOX"), SearchAll]
  }

  /** The session steps after the loop. */
  function Closing(proto: Protocol, o: FetchOptions, failure: Option<MethodName>): seq<Event>
  {
    if failure.Some? then []
    else match proto
      case Pop => if Truthy(o.finish) then [Finish] else []
      case Imap => [Close]
  }

  /** A cycle that runs the loop is its opening, the loop, and its closing. */
  lemma CycleShape(proto: Protocol, cfg: Config, o: FetchOptions, c: Consumer, msgs: seq<Message>)
    requires o.mailerMethods.Some? && IteratesMailbox(proto, o)
    ensures var run := Run(proto, o, c, MailerMethods(o), msgs, |msgs|);
      && CycleOf(proto, cfg, o, c, msgs).failure == run.failure
      && CycleOf(proto, cfg, o, c, msgs).events == Opening(proto, cfg) + run.events + Closing(proto, o, run.failure)
      && SessionOnly(Opening(proto, cfg)) && SessionOnly(Closing(proto, o, run.failure))
  {
  }

  /** A cycle whose methods all exist completes; its dispatch log is every
      method for each message in enumeration order; it requests deletion of
      exactly the messages the policy deletes, at most once each on
      prepared options; and a server that honours the requests keeps the
      messages the policy keeps. POP and IMAP agree on all of this. */
  lemma CycleOutcome(proto: Protocol, cfg: Config, o: FetchOptions, c: Consumer, msgs: seq<Message>)
    requires o.mailerMethods.Some? && AllSupported(c, MailerMethods(o)) && IteratesMailbox(proto, o)
    ensures var s := CycleOf(proto, cfg, o, c, msgs);
      && s.failure.None?
      && Invocations(s.events) == DispatchLog(MailerMethods(o), msgs)
      && (forall x :: x in DeletedNumbers(s.events) <==> 1 <= x <= |msgs| && ShouldDelete(o, msgs[x - 1]))
      && (IsPrepared(o) ==> Increasing(DeletedNumbers(s.events)))
      && Survivors(msgs, DeletedNumbers(s.events)) == Kept(o, msgs)
  {
    var run := Run(proto, o, c, MailerMethods(o), msgs, |msgs|);
    RunViews(proto, o, c, MailerMethods(o), msgs, |msgs|);
    assert msgs[..|msgs|] == msgs;
    CycleShape(proto, cfg, o, c, msgs);
    Framed(Opening(proto, cfg), run.events, Closing(proto, o, run.failure));
    SurvivorsAreKept(o, msgs, DeletedNumbers(run.events), |msgs|);
  }

  /** In a whole cycle whose methods all exist, each message's delete
      request still follows its calls and precedes the next message's. */
  lemma CycleOrder(proto: Protocol, cfg: Config, o: FetchOptions, c: Consumer, msgs: seq<Message>)
    requires o.mailerMethods.Some? && AllSupported(c, MailerMethods(o)) && IteratesMailbox(proto, o)
    ensures DeletesFollowCalls(CycleOf(proto, cfg, o, c, msgs).events, MailerMethods(o), msgs)
  {
    var run := Run(proto, o, c, MailerMethods(o), msgs, |msgs|);
    RunOrder(proto, o, c, MailerMethods(o), msgs, |msgs|);
    CycleShape(proto, cfg, o, c, msgs);
    OrderFramed(Opening(proto, cfg), run.events, Closing(proto, o, run.failure), MailerMethods(o), msgs);
  }

  /** The next cycle sees what the server kept: after a `:keep => true`
      cycle a default cycle dispatches the same messages again, after a
      default cycle it dispatches nothing, and after a cycle with a block it
      dispatches exactly the messages the block did not match. */
  lemma NextCycleSeesKept(proto1: Protocol, proto2: Protocol, cfg: Config,
                          o1: FetchOptions, o2: FetchOptions, c: Consumer, msgs: seq<Message>)
    requires o1.mailerMethods.Some? && AllSupported(c, MailerMethods(o1)) && IteratesMailbox(proto1, o1)
    requires o2.mailerMethods.Some? && AllSupported(c, MailerMethods(o2)) && IteratesMailbox(proto2, o2)
    ensures var first := CycleOf(proto1, cfg, o1, c, msgs);
      var left := Survivors(msgs, DeletedNumbers(first.events));
      var next := Invocations(CycleOf(proto2, cfg, o2, c, left).events);
      && next == DispatchLog(MailerMethods(o2), Kept(o1, msgs))
      && (Truthy(o1.keep) && o1.deleteIf.None? ==> next == DispatchLog(MailerMethods(o2), msgs))
      && (!Truthy(o1.keep) ==> next == [])
      && (IsPrepared(o1) && o1.deleteIf.Some? ==>
            next == DispatchLog(MailerMethods(o2), Unmatched(o1.deleteIf.value, msgs)))
  {
    CycleOutcome(proto1, cfg, o1, c, msgs);
    var left := Survivors(msgs, DeletedNumbers(CycleOf(proto1, cfg, o1, c, msgs).events));
    CycleOutcome(proto2, cfg, o2, c, left);
    if Truthy(o1.keep) && o1.deleteIf.None? {
      KeepingKeepsAll(o1, msgs);
    }
    if !Truthy(o1.keep) {
      DefaultDeletesAll(o1, msgs);
    }
    if IsPrepared(o1) && o1.deleteIf.Some? {
      BlockAloneDecides(o1, msgs);
    }
  }

  /** The teardown follows the cycle's own outcome. POP sends `finish`
      exactly when the loop completed and the flag is set, and then as its
      last step; IMAP's default mode sends `close` exactly when the loop
      completed, once, as its last step. A loop that raised sends neither. */
  lemma Teardown(proto: Protocol, cfg: Config, o: FetchOptions, c: Consumer, msgs: seq<Message>)
    requires o.mailerMethods.Some? && IteratesMailbox(proto, o)
    ensures var s := CycleOf(proto, cfg, o, c, msgs); var es := s.events;
      && (proto == Pop ==>
            && (Finish in es <==> s.failure.None? && Truthy(o.finish))
            && (Finish in es ==> es[|es| - 1] == Finish && Finish !in es[..|es| - 1])
            && Close !in es)
      && (proto == Imap ==>
            && (Close in es <==> s.failure.None?)
            && (Close in es ==> es[|es| - 1] == Close && Close !in es[..|es| - 1])
            && Finish !in es)
  {
    var run := Run(proto, o, c, MailerMethods(o), msgs, |msgs|);
    RunEventKinds(proto, o, c, MailerMethods(o), msgs, |msgs|);
    CycleShape(proto, cfg, o, c, msgs);
    var pre := Opening(proto, cfg) + run.events;
    assert Finish !in pre && Close !in pre;
    ClosingAfter(proto, o, pre, run.failure);
  }

  /** The closing steps after a trace holding no teardown step. */
  lemma ClosingAfter(proto: Protocol, o: FetchOptions, pre: seq<Event>, failure: Option<MethodName>)
    requires Finish !in pre && Close !in pre
    ensures var es := pre + Closing(proto, o, failure);
      && (proto == Pop ==>
            && (Finish in es <==> failure.None? && Truthy(o.finish))
            && (Finish in es ==> es[|es| - 1] == Finish && Finish !in es[..|es| - 1])
            && Close !in es)
      && (proto == Imap ==>
            && (Close in es <==> failure.None?)
            && (Close in es ==> es[|es| - 1] == Close && Close !in es[..|es| - 1])
            && Finish !in es)
  {
    var tail := Closing(proto, o, failure);
    if tail == [] {
      assert pre + tail == pre;
    } else {
      EndsWith(pre, tail[0]);
    }
  }

  /** A step appended to a trace without it is its last and only one. */
  lemma EndsWith(pre: seq<Event>, x: Event)
    requires x !in pre
    ensures var es := pre + [x]; x in es && es[|es| - 1] == x && x !in es[..|es| - 1]
  {
    assert (pre + [x])[..|pre|] == pre;
  }

  /** With `:use_imap` the session goes to each named method once, in
      order, and nothing else happens: no folder, no search, no retrieval,
      no flag and no close. */
  lemma LiveSessionHandsOver(cfg: Config, o: FetchOptions, c: Consumer, msgs: seq<Message>)
    requires o.mailerMethods.Some? && o.useImap.Some? && AllSupported(c, Flatten(o.useImap.value))
    ensures var s := ImapCycle(cfg, o, c, msgs);
      && s.failure.None?
      && s.events == [Connect(Imap, cfg.server, cfg.port, cfg.username)] + Calls(Flatten(o.useImap.value), LiveSession)
      && Invocations(s.events) == Calls(Flatten(o.useImap.value), LiveSession)
      && DeletedNumbers(s.events) == []
      && forall e :: e in s.events ==> e.Connect? || (e.Invoke? && e.payload == LiveSession)
  {
    LiveSessionTrace(cfg, o, c, msgs);
    LoginThenCalls([Connect(Imap, cfg.server, cfg.port, cfg.username)], Flatten(o.useImap.value), LiveSession);
  }

  /** With `:use_imap`, a named method the class lacks raises after the
      calls to the methods before it, which are made with the session;
      nothing else happens and `close` is never sent. */
  lemma LiveSessionAborts(cfg: Config, o: FetchOptions, c: Consumer, msgs: seq<Message>)
    requires o.mailerMethods.Some? && o.useImap.Some? && !AllSupported(c, Flatten(o.useImap.value))
    ensures var names := Flatten(o.useImap.value);
      var s := ImapCycle(cfg, o, c, msgs);
      exists k :: 0 <= k < |names| && s.failure == Some(names[k]) && names[k] !in c.responds
        && (forall j :: 0 <= j < k ==> names[j] in c.responds)
        && s.events == [Connect(Imap, cfg.server, cfg.port, cfg.username)] + Calls(names[..k], LiveSession)
    ensures var s := ImapCycle(cfg, o, c, msgs);
      && Invocations(s.events) != Calls(Flatten(o.useImap.value), LiveSession)
      && DeletedNumbers(s.events) == []
      && (forall e :: e in s.events ==> e.Connect? || (e.Invoke? && e.payload == LiveSession))
  {
    var names := Flatten(o.useImap.value);
    var login := [Connect(Imap, cfg.server, cfg.port, cfg.username)];
    var d := Dispatch(c, names, LiveSession);
    var k :| 0 <= k < |names| && d.failure == Some(names[k]) && names[k] !in c.responds
      && (forall j :: 0 <= j < k ==> names[j] in c.responds)
      && d.events == Calls(names[..k], LiveSession);
    assert ImapCycle(cfg, o, c, msgs) == Step(login + Calls(names[..k], LiveSession), d.failure);
    LoginThenCalls(login, names[..k], LiveSession);
    assert |Calls(names[..k], LiveSession)| < |Calls(names, LiveSession)|;
  }

  lemma LiveSessionTrace(cfg: Config, o: FetchOptions, c: Consumer, msgs: seq<Message>)
    requires o.mailerMethods.Some? && o.useImap.Some? && AllSupported(c, Flatten(o.useImap.value))
    ensures ImapCycle(cfg, o, c, msgs) ==
      Step([Connect(Imap, cfg.server, cfg.port, cfg.username)] + Calls(Flatten(o.useImap.value), LiveSession), None)
  {
  }

  /** A login followed by a run of calls: the calls are all that reach the
      mailer class, all with the same payload, and nothing is deleted. */
  lemma LoginThenCalls(login: seq<Event>, names: seq<MethodName>, p: Payload)
    requires forall e :: e in login ==> e.Connect?
    ensures Invocations(login + Calls(names, p)) == Calls(names, p)
    ensures DeletedNumbers(login + Calls(names, p)) == []
    ensures forall e :: e in login + Calls(names, p) ==> e.Connect? || (e.Invoke? && e.payload == p)
  {
    var calls := Calls(names, p);
    ViewsOfCalls(names, p);
    Framed(login, calls, []);
    assert login + calls + [] == login + calls;
    assert forall e :: e in calls ==> e.Invoke? && e.payload == p;
  }

  /** A cycle over an empty mailbox makes no call and no delete request, so
      it completes whatever methods are configured, and still tears the
      session down: `finish` when the flag is set, `close` for IMAP. */
  lemma EmptyMailboxCycle(proto: Protocol, cfg: Config, o: FetchOptions, c: Consumer)
    requires o.mailerMethods.Some? && IteratesMailbox(proto, o)
    ensures var s := CycleOf(proto, cfg, o, c, []);
      && s.failure.None? && Invocations(s.events) == [] && DeletedNumbers(s.events) == []
      && s.events == Opening(proto, cfg) + Closing(proto, o, None)
  {
    CycleShape(proto, cfg, o, c, []);
    Framed(Opening(proto, cfg), [], Closing(proto, o, None));
  }

  /** The loop of a cycle that lacks a method, seen through its views. */
  lemma AbortedRunViews(proto: Protocol, o: FetchOptions, c: Consumer, names: seq<MethodName>, msgs: seq<Message>)
    requires msgs != [] && !AllSupported(c, names)
    ensures var k := FirstUnsupported(c, names);
      var es := Run(proto, o, c, names, msgs, |msgs|).events;
      && Invocations(es) == Calls(names[..k], Email(msgs[0]))
      && DeletedNumbers(es) == []
      && Finish !in es && Close !in es
  {
    var k := FirstUnsupported(c, names);
    var calls := Calls(names[..k], Email(msgs[0]));
    var es := Run(proto, o, c, names, msgs, |msgs|).events;
    assert es == [Retrieve(proto, 1)] + calls by {
      RunStopsAtFirstMessage(proto, o, c, names, msgs);
    }
    assert Invocations(es) == calls && DeletedNumbers(es) == [] by {
      ViewsOfCalls(names[..k], Email(msgs[0]));
      Framed([Retrieve(proto, 1)], calls, []);
      assert [Retrieve(proto, 1)] + calls + [] == es;
    }
    assert Finish !in es && Close !in es by {
      assert forall e :: e in calls ==> e.Invoke?;
    }
  }

  /** A method the mailer class lacks aborts a non-empty cycle on the first
      e-mail: the calls before it in the list are made, then nothing is
      deleted and neither `finish` nor `close` is sent. */
  lemma MissingMethodAborts(proto: Protocol, cfg: Config, o: FetchOptions, c: Consumer, msgs: seq<Message>)
    requires o.mailerMethods.Some? && !AllSupported(c, MailerMethods(o)) && IteratesMailbox(proto, o)
    requires msgs != []
    ensures var s := CycleOf(proto, cfg, o, c, msgs);
      var names := MailerMethods(o);
      var k := FirstUnsupported(c, names);
      && k < |names|
      && s.failure == Some(names[k])
      && Invocations(s.events) == Calls(names[..k], Email(msgs[0]))
      && DeletedNumbers(s.events) == []
      && Finish !in s.events && Close !in s.events
  {
    var names := MailerMethods(o);
    var run := Run(proto, o, c, names, msgs, |msgs|);
    var k := FirstUnsupported(c, names);
    var head := Opening(proto, cfg);
    RunStopsAtFirstMessage(proto, o, c, names, msgs);
    AbortedRunViews(proto, o, c, names, msgs);
    assert CycleOf(proto, cfg, o, c, msgs).events == head + run.events by {
      CycleShape(proto, cfg, o, c, msgs);
      assert head + run.events + [] == head + run.events;
    }
    assert SessionOnly(head) && Finish !in head && Close !in head;
    AbortFramed(head, run.events, Calls(names[..k], Email(msgs[0])));
  }

  /** Session steps before an aborted loop add no call, no delete request
      and no teardown. */
  lemma AbortFramed(head: seq<Event>, es: seq<Event>, calls: seq<Event>)
    requires SessionOnly(head) && Finish !in head && Close !in head
    requires Invocations(es) == calls && DeletedNumbers(es) == [] && Finish !in es && Close !in es
    ensures Invocations(head + es) == calls && DeletedNumbers(head + es) == []
    ensures Finish !in head + es && Close !in head + es
  {
    Framed(head, es, []);
    assert head + es + [] == head + es;
  }

  // ---------------------------------------------------------------------
  // Validation

  /** The interface check is narrow: a single configured method that the
      class has passes it whenever the class also responds to `receive`,
      yet the cycle then raises on the first e-mail if the class lacks that
      method; and lists of any other length are never checked, even when
      the class responds to none of their names. */
  lemma NarrowInterfaceCheck(proto: Protocol, cfg: Config, o: FetchOptions, c: Consumer,
                             n: MethodName, msgs: seq<Message>)
    requires o.mailerMethods == Some(One(n)) && "receive" in c.responds && n !in c.responds
    requires msgs != [] && IteratesMailbox(proto, o)
    ensures CheckMailer(Some(c), o) == Completed
    ensures CycleOf(proto, cfg, o, c, msgs).failure == Some(n)
    ensures forall o': FetchOptions :: MethodCount(o'.mailerMethods) != 1 ==> CheckMailer(Some(Consumer({})), o') == Completed
  {
    assert !AllSupported(c, MailerMethods(o)) by { assert MailerMethods(o) == [n]; }
    MissingMethodAborts(proto, cfg, o, c, msgs);
  }

  /** With the default method list the check is enough: a class that passes
      it has `receive`, so the default cycle never raises. */
  lemma DefaultCheckGuardsDispatch(c: Consumer, o: FetchOptions)
    requires o.mailerMethods.None? && CheckMailer(Some(c), Prepare(o)) == Completed
    ensures AllSupported(c, MailerMethods(Prepare(o)))
  {
  }
}
