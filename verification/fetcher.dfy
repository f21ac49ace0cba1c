/** The `MailFetcher` class itself: its class-level settings, `fetch`, and
    the two protocol loops, run against an abstract mailbox whose trace
    records every session step and every call made on the mailer class. */
module MailFetcher {
  import opened Options
  import opened Cycle
  import CycleProperties

  /** A server mailbox reached through one session: the pending messages,
      enumerated once when the cycle starts, and the trace of everything the
      cycle has done so far, on the session and on the mailer class. */
  class Mailbox {
    const messages: seq<Message>
    var trace: seq<Event>

    constructor (msgs: seq<Message>)
      ensures messages == msgs && trace == []
    {
      messages := msgs;
      trace := [];
    }

    method Record(e: Event)
      modifies this
      ensures trace == old(trace) + [e]
    {
      trace := trace + [e];
    }

    /** `names.each {|method| mailer_class.send(method, payload)}`, which
        raises at the first name the mailer class lacks. */
    method Send(c: Consumer, names: seq<MethodName>, p: Payload) returns (failure: Option<MethodName>)
      modifies this
      ensures trace == old(trace) + Dispatch(c, names, p).events
      ensures failure == Dispatch(c, names, p).failure
    {
      var k := 0;
      while k < |names|
        invariant 0 <= k <= |names|
        invariant forall j :: 0 <= j < k ==> names[j] in c.responds
        invariant trace == old(trace) + Calls(names[..k], p)
      {
        if names[k] !in c.responds {
          return Some(names[k]);
        }
        assert Calls(names[..k + 1], p) == Calls(names[..k], p) + [Invoke(names[k], p)];
        trace := trace + [Invoke(names[k], p)];
        k := k + 1;
      }
      assert names[..k] == names;
      failure := None;
    }
  }

  /** The body of both loops for message `num`: retrieve it (`mail.pop`
      or `imap.fetch`), send it to each method, then issue the deletion
      statements (`mail.delete` or `imap.store ... [:Deleted]`) in order:
      once when the `:delete_if` block matches, once more unless `:keep`. */
  method Handle(box: Mailbox, proto: Protocol, o: FetchOptions, c: Consumer, names: seq<MethodName>,
                num: nat, m: Message) returns (failure: Option<MethodName>)
    modifies box
    ensures box.trace == old(box.trace) + HandleMessage(proto, o, c, names, num, m).events
    ensures failure == HandleMessage(proto, o, c, names, num, m).failure
  {
    box.Record(Retrieve(proto, num));
    failure := box.Send(c, names, Email(m));
    ghost var retrieved := [Retrieve(proto, num)] + Dispatch(c, names, Email(m)).events;
    CycleProperties.Regroup3(old(box.trace), [Retrieve(proto, num)], Dispatch(c, names, Email(m)).events);
    if failure.Some? {
      return;
    }
    ghost var sent := box.trace;
    if o.deleteIf.Some? && o.deleteIf.value(m) {
      box.Record(MarkDeleted(proto, num));
    }
    if !Truthy(o.keep) {
      box.Record(MarkDeleted(proto, num));
    }
    assert box.trace == sent + DeleteRequests(proto, o, num, m);
    CycleProperties.Regroup3(old(box.trace), retrieved, DeleteRequests(proto, o, num, m));
  }

  /** Iteration `n` of the message loop, after `n - 1` that did not raise. */
  method Iterate(box: Mailbox, proto: Protocol, o: FetchOptions, c: Consumer, names: seq<MethodName>,
                 n: nat, ghost start: seq<Event>) returns (failure: Option<MethodName>)
    requires 0 < n <= |box.messages|
    requires Run(proto, o, c, names, box.messages, n - 1).failure.None?
    requires box.trace == start + Run(proto, o, c, names, box.messages, n - 1).events
    modifies box
    ensures box.trace == start + Run(proto, o, c, names, box.messages, n).events
    ensures failure == Run(proto, o, c, names, box.messages, n).failure
  {
    failure := Handle(box, proto, o, c, names, n, box.messages[n - 1]);
    CycleProperties.RunStep(proto, o, c, names, box.messages, n);
    CycleProperties.Regroup3(start, Run(proto, o, c, names, box.messages, n - 1).events,
                             HandleMessage(proto, o, c, names, n, box.messages[n - 1]).events);
  }

  /** The message loop shared by both protocols: handle every message in
      enumeration order, stopping at the first `send` that raises. */
  method Loop(box: Mailbox, proto: Protocol, o: FetchOptions, c: Consumer, names: seq<MethodName>)
    returns (failure: Option<MethodName>)
    modifies box
    ensures box.trace == old(box.trace) + Run(proto, o, c, names, box.messages, |box.messages|).events
    ensures failure == Run(proto, o, c, names, box.messages, |box.messages|).failure
  {
    var n := 0;
    failure := None;
    while n < |box.messages|
      invariant 0 <= n <= |box.messages|
      invariant failure.None? && Run(proto, o, c, names, box.messages, n).failure.None?
      invariant box.trace == old(box.trace) + Run(proto, o, c, names, box.messages, n).events
    {
      n := n + 1;
      failure := Iterate(box, proto, o, c, names, n, old(box.trace));
      if failure.Some? {
        CycleProperties.RunFailureSticks(proto, o, c, names, box.messages, n, |box.messages|);
        return;
      }
    }
  }

  /** The class-level state of `MailFetcher`: the mailer class, the loaded
      configuration section and the access protocol, each unset until a
      caller or `fetch` sets it. */
  class Fetcher {
    var mailerClass: Option<Consumer>
    var config: Option<Config>
    var access: Option<string>

    constructor ()
      ensures mailerClass.None? && config.None? && access.None?
    {
      mailerClass, config, access := None, None, None;
    }

    /** `fetch_pop`: every pending e-mail in turn is retrieved, handed to
        each configured method, then deleted if the options say so;
        `finish` is sent at the end only when `:finish` is set. */
    method FetchPop(o: FetchOptions, box: Mailbox) returns (r: Outcome)
      requires config.Some? && mailerClass.Some? && o.mailerMethods.Some?
      modifies box
      ensures box.trace == old(box.trace) + PopCycle(config.value, o, mailerClass.value, box.messages).events
      ensures r == OutcomeOf(PopCycle(config.value, o, mailerClass.value, box.messages).failure)
    {
      var cfg, c := config.value, mailerClass.value;
      box.Record(Connect(Pop, cfg.server, None, cfg.username));
      var failure := Loop(box, Pop, o, c, MailerMethods(o));
      ghost var looped := box.trace;
      if failure.None? && Truthy(o.finish) {
        box.Record(Finish);
      }
      CycleProperties.Regroup(old(box.trace), [Connect(Pop, cfg.server, None, cfg.username)],
        Run(Pop, o, c, MailerMethods(o), box.messages, |box.messages|).events, box.trace[|looped|..]);
      r := OutcomeOf(failure);
    }

    /** `fetch_imap`: with `:use_imap` the open session is handed to each
        named method and nothing else happens; otherwise INBOX is examined,
        every message the search finds is fetched, handed to each
        configured method and flagged \Deleted if the options say so, and
        the folder is closed at the end. */
    method FetchImap(o: FetchOptions, box: Mailbox) returns (r: Outcome)
      requires config.Some? && mailerClass.Some? && o.mailerMethods.Some?
      modifies box
      ensures box.trace == old(box.trace) + ImapCycle(config.value, o, mailerClass.value, box.messages).events
      ensures r == OutcomeOf(ImapCycle(config.value, o, mailerClass.value, box.messages).failure)
    {
      var cfg, c := config.value, mailerClass.value;
      box.Record(Connect(Imap, cfg.server, cfg.port, cfg.username));
      if o.useImap.Some? {
        var failure := box.Send(c, Flatten(o.useImap.value), LiveSession);
        return OutcomeOf(failure);
      }
      box.Record(Examine("INBOX"));
      box.Record(SearchAll);
      ghost var login := [Connect(Imap, cfg.server, cfg.port, cfg.username)];
      assert box.trace == old(box.trace) + (login + [Examine("INBOX"), SearchAll]);
      var failure := Loop(box, Imap, o, c, MailerMethods(o));
      ghost var looped := box.trace;
      if failure.None? {
        box.Record(Close);
      }
      CycleProperties.Regroup(old(box.trace), login + [Examine("INBOX"), SearchAll],
        Run(Imap, o, c, MailerMethods(o), box.messages, |box.messages|).events, box.trace[|looped|..]);
      r := OutcomeOf(failure);
    }

    /** `fetch`: prepare the caller's options in place, validate the mailer
        class, load the configuration section once, then run the handler the
        access setting names (IMAP when unset). A failed validation happens
        before any configuration is loaded or session opened. */
    method Fetch(opts: OptionsHash, box: Mailbox, load: string -> Config, railsEnv: string) returns (r: Outcome)
      modifies this, opts, box
      ensures opts.Value() == Prepare(old(opts.Value()))
      ensures mailerClass == old(mailerClass) && access == old(access)
      ensures CheckMailer(mailerClass, opts.Value()).Raised? ==>
        && r == CheckMailer(mailerClass, opts.Value())
        && config == old(config)
        && box.trace == old(box.trace)
      ensures CheckMailer(mailerClass, opts.Value()).Completed? ==>
        && mailerClass.Some?
        && config == (if old(config).Some? then old(config) else Some(load(ConfigSection(opts.Value(), railsEnv))))
        && (ProtocolFor(access).Some? ==>
              var s := CycleOf(ProtocolFor(access).value, config.value, opts.Value(), mailerClass.value, box.messages);
              box.trace == old(box.trace) + s.events && r == OutcomeOf(s.failure))
        && (ProtocolFor(access).None? ==>
              r == Raised(NoMethodError("fetch_" + access.value)) && box.trace == old(box.trace))
    {
      var o := opts.PrepareOptions();
      r := CheckMailer(mailerClass, o);
      if r.Raised? {
        return;
      }
      if config.None? {
        config := Some(load(ConfigSection(o, railsEnv)));
      }
      var proto := ProtocolFor(access);
      if proto == Some(Pop) {
        r := FetchPop(o, box);
      } else if proto == Some(Imap) {
        r := FetchImap(o, box);
      } else {
        r := Raised(NoMethodError("fetch_" + access.value));
      }
    }
  }
}
